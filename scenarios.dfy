/** Worked cases: small component modules written out as syntax trees, and
    what the extractor gives for each. The generator stays a parameter, so
    `code` and `data` are stated as whatever it prints for the node. */
module Scenarios {
  import opened Wrappers
  import opened Seqs
  import opened JsAst
  import opened Records
  import opened Traversal
  import opened Props
  import opened Methods
  import opened Events
  import opened ParseCode

  // export default {
  //   computed: { c: function () { this.$emit('changed', value); } }
  // }
  const This := Other("ThisExpression", [])
  const EmitName := Identifier("$emit")
  const Changed := Literal(Str("changed"))
  const ValueArg := Identifier("value")
  const EmitCallee := MemberExpression(This, EmitName)
  const ChangedCall := CallExpression(EmitCallee, [Changed, ValueArg])
  const Statement := Other("ExpressionStatement", [ChangedCall])
  const Block := Other("BlockStatement", [Statement])
  const Handler := FunctionExpression([], Block)
  const Computed := ObjectExpression([Property(Identifier("c"), Handler)])
  const Exported := ObjectExpression([Property(Identifier("computed"), Computed)])
  const Export := ExportDefaultDeclaration(Exported)
  const EmitInComputed := Other("Program", [Export])

  // Unfoldings of the walk on nodes with few children.

  lemma ScanAllOne(p: Node, a: Node)
    requires p decreases to a
    ensures PreOrderAll(p, [a]) == PreOrder(a)
  {
    assert [a][1..] == [];
    assert PreOrder(a) + [] == PreOrder(a);
  }

  lemma ScanAllTwo(p: Node, a: Node, b: Node)
    requires p decreases to a
    requires p decreases to b
    ensures PreOrderAll(p, [a, b]) == PreOrder(a) + PreOrder(b)
  {
    assert [a, b][1..] == [b];
    ScanAllOne(p, b);
  }

  lemma ScanAllThree(p: Node, a: Node, b: Node, c: Node)
    requires p decreases to a
    requires p decreases to b
    requires p decreases to c
    ensures PreOrderAll(p, [a, b, c]) == PreOrder(a) + PreOrder(b) + PreOrder(c)
  {
    assert [a, b, c][1..] == [b, c];
    ScanAllTwo(p, b, c);
  }

  lemma ScanLeaf(n: Node)
    requires Kind(n) !in Skips && Children(n) == []
    ensures PreOrder(n) == [n]
  {
  }

  lemma ScanOne(n: Node, a: Node)
    requires Kind(n) !in Skips && Children(n) == [a]
    ensures PreOrder(n) == [n] + PreOrder(a)
  {
    assert a in Children(n);
    ScanAllOne(n, a);
  }

  lemma ScanTwo(n: Node, a: Node, b: Node)
    requires Kind(n) !in Skips && Children(n) == [a, b]
    ensures PreOrder(n) == [n] + PreOrder(a) + PreOrder(b)
  {
    assert a in Children(n) && b in Children(n);
    ScanAllTwo(n, a, b);
  }

  lemma ScanCall(f: Node, x: Node, y: Node)
    ensures PreOrder(CallExpression(f, [x, y])) ==
      [CallExpression(f, [x, y])] + PreOrder(f) + PreOrder(x) + PreOrder(y)
  {
    var n := CallExpression(f, [x, y]);
    assert Children(n) == [f, x, y];
    assert f in Children(n) && x in Children(n) && y in Children(n);
    ScanAllThree(n, f, x, y);
  }

  /** The children of an object literal with one property. */
  lemma OnePropertyChildren(k: Node, v: Node)
    ensures Children(ObjectExpression([Property(k, v)])) == [k, v]
  {
    assert MemberKind(Property(k, v)) !in Skips;
    assert [Property(k, v)][1..] == [];
    assert MemberChildren([Property(k, v)]) == [k, v] + MemberChildren([]);
    assert [k, v] + [] == [k, v];
  }

  /** The nodes the walk examines from the `$emit` call on. */
  const CallScan := [ChangedCall, EmitCallee, This, EmitName, Changed, ValueArg]

  lemma CallScanOrder()
    ensures PreOrder(ChangedCall) == CallScan
  {
    ScanLeaf(This);
    ScanLeaf(EmitName);
    ScanLeaf(Changed);
    ScanLeaf(ValueArg);
    ScanTwo(EmitCallee, This, EmitName);
    ScanCall(EmitCallee, Changed, ValueArg);
  }

  /** The nodes the walk examines from the computed function on. */
  lemma HandlerScanOrder()
    ensures PreOrder(Handler) == [Handler, Block, Statement] + CallScan
  {
    CallScanOrder();
    ScanOne(Statement, ChangedCall);
    ScanOne(Block, Statement);
    assert Children(Handler) == [Block];
    ScanOne(Handler, Block);
  }

  /** The nodes the walk examines before the call. */
  const Front := [EmitInComputed, Export, Exported, Identifier("computed"), Computed, Identifier("c"),
       Handler, Block, Statement]

  lemma ModuleScanOrder()
    ensures PreOrder(EmitInComputed) == Front + CallScan
  {
    HandlerScanOrder();
    ScanLeaf(Identifier("c"));
    ScanLeaf(Identifier("computed"));
    OnePropertyChildren(Identifier("c"), Handler);
    ScanTwo(Computed, Identifier("c"), Handler);
    OnePropertyChildren(Identifier("computed"), Computed);
    ScanTwo(Exported, Identifier("computed"), Computed);
    ScanOne(Export, Exported);
    ScanOne(EmitInComputed, Export);
  }

  /** The nodes the walk examines after the call. */
  const Back := [EmitCallee, This, EmitName, Changed, ValueArg]

  lemma OnlyOneCall()
    ensures forall n :: n in Front ==> !n.CallExpression?
    ensures forall n :: n in Back ==> !n.CallExpression?
  {
  }

  lemma ScanSplit()
    ensures PreOrder(EmitInComputed) == Front + [ChangedCall] + Back
  {
    ModuleScanOrder();
    assert CallScan == [ChangedCall] + Back;
    assert Front + CallScan == Front + ([ChangedCall] + Back);
  }

  lemma ScanFilter()
    ensures Filter(IsEmitCall, Front + [ChangedCall] + Back) == [ChangedCall]
  {
    OnlyOneCall();
    FilterNone(IsEmitCall, Front);
    FilterNone(IsEmitCall, Back);
    FilterAppend(IsEmitCall, Front + [ChangedCall], Back);
    FilterAppend(IsEmitCall, Front, [ChangedCall]);
    assert Filter(IsEmitCall, [ChangedCall]) == [ChangedCall] by {
      assert [ChangedCall][1..] == [];
    }
    assert [] + [ChangedCall] + [] == [ChangedCall];
  }

  lemma ModuleEmitCalls()
    ensures EmitCalls(EmitInComputed) == Ok([ChangedCall])
  {
    ScanSplit();
    OnlyOneCall();
    ScanFilter();
    EmitCallsSpec(EmitInComputed);
    assert forall n :: n in Front + [ChangedCall] + Back ==> !HasBareCallee(n) by {
      forall n | n in Front + [ChangedCall] + Back
        ensures !HasBareCallee(n)
      {
        assert n in Front || n == ChangedCall || n in Back;
      }
    }
  }

  lemma ModuleExport()
    ensures ExportObject(EmitInComputed) == Some(Exported)
  {
    ModuleScanOrder();
    var vs := PreOrder(EmitInComputed);
    assert vs[0] == EmitInComputed;
    assert vs[1..][0] == Export;
    assert FirstTarget(vs) == FirstTarget(vs[1..]);
  }

  /** An `$emit` written inside a computed property is still found, and it
      is the only event; the computed property itself is recorded too. */
  lemma EmitInComputedIsFound(gen: Generator)
    ensures DescriptorOf(gen, EmitInComputed) == Ok(Descriptor(
      Str(""), [Str("computed")], [], None,
      [Event(gen(ChangedCall), Some(Str("changed")), Some(gen(ValueArg)))],
      [], [Member(Str("c"), "Function()")]))
  {
    ModuleExport();
    ModuleEmitCalls();
    assert EventsOf(gen, EmitInComputed) == Ok([EventOf(gen, ChangedCall)]) by {
      assert [ChangedCall][1..] == [];
      assert EventsFrom(gen, [ChangedCall]) == [EventOf(gen, ChangedCall)] + EventsFrom(gen, []);
      assert [EventOf(gen, ChangedCall)] + [] == [EventOf(gen, ChangedCall)];
    }
    assert MethodsOf(gen, Computed) == [Member(Str("c"), "Function()")] by {
      MethodsOfOneMember(gen, Property(Identifier("c"), Handler));
      assert Signature(gen, []) == "Function(" + "" + ")";
      assert "Function(" + "" + ")" == "Function()";
    }
    var d := EmptyDescriptor.(events := [EventOf(gen, ChangedCall)]);
    var ms := [Property(Identifier("computed"), Computed)];
    assert ms[1..] == [];
    assert PropertyList(Exported) == ms;
    assert DescriptorOf(gen, EmitInComputed) == Apply(gen, d, ms);
    assert "computed" != "name" && "computed" != "props" && "computed" != "methods" && "computed" != "components";
    assert d.options + [Str("computed")] == [Str("computed")];
    assert Step(gen, d, ms[0]) == Ok(d.(options := [Str("computed")], computeds := MethodsOf(gen, Computed)));
    assert Apply(gen, d, ms) == Step(gen, d, ms[0]);
  }

  /** `foo();` in a module that exports nothing. */
  const BareCall := CallExpression(Identifier("foo"), [])
  const NoExport := Other("Program", [Other("ExpressionStatement", [BareCall])])

  /** Without an export the initial descriptor comes back, although the
      event scan would have thrown on `foo()`: it is never run. */
  lemma NoExportGivesDefaults(gen: Generator)
    ensures EmitCalls(NoExport) == Err(CalleeNotMember)
    ensures DescriptorOf(gen, NoExport) == Ok(EmptyDescriptor)
  {
    var stmt := Other("ExpressionStatement", [BareCall]);
    ScanLeaf(Identifier("foo"));
    assert Children(BareCall) == [Identifier("foo")];
    ScanOne(BareCall, Identifier("foo"));
    ScanOne(stmt, BareCall);
    ScanOne(NoExport, stmt);
    var vs := PreOrder(NoExport);
    assert vs == [NoExport, stmt, BareCall, Identifier("foo")];
    assert vs[1..] == [stmt, BareCall, Identifier("foo")];
    assert vs[1..][1..] == [BareCall, Identifier("foo")];
    assert vs[1..][1..][1..] == [Identifier("foo")];
    assert vs[1..][1..][1..][1..] == [];
    assert FirstTarget(vs[1..][1..][1..]) == None;
    assert FirstTarget(vs[1..][1..]) == None;
    assert FirstTarget(vs[1..]) == None;
    assert FirstTarget(vs) == None;
    assert EmitCheck(BareCall) == Err(CalleeNotMember);
    assert TryFlatMap(EmitCheck, vs[1..][1..]) == Err(CalleeNotMember);
    assert TryFlatMap(EmitCheck, vs[1..]) == Err(CalleeNotMember);
  }

  /** `{ name: 'x', foo: 1, props: [] }`: every key is an option, in source
      order, unknown ones included. */
  lemma OptionsInSourceOrder(gen: Generator)
    ensures Apply(gen, EmptyDescriptor, [
        Property(Identifier("name"), Literal(Str("x"))),
        Property(Identifier("foo"), Literal(Num(1))),
        Property(Identifier("props"), ArrayExpression([]))]) ==
      Ok(EmptyDescriptor.(name := Str("x"), options := [Str("name"), Str("foo"), Str("props")]))
  {
    var ms := [
        Property(Identifier("name"), Literal(Str("x"))),
        Property(Identifier("foo"), Literal(Num(1))),
        Property(Identifier("props"), ArrayExpression([]))];
    assert ms[1..] == ms[1..2] + ms[2..] && ms[1..][1..] == ms[2..] && ms[2..][1..] == [];
    assert "foo" != "name" && "foo" != "props" && "foo" != "methods" && "foo" != "components" && "foo" != "computed";
    assert "props" != "name";
    var d1 := EmptyDescriptor.(name := Str("x"), options := [Str("name")]);
    assert EmptyDescriptor.options + [Str("name")] == [Str("name")];
    assert NameOf(Identifier("name")) == Str("name");
    assert Step(gen, EmptyDescriptor, ms[0]) == Ok(d1);
    var d2 := d1.(options := [Str("name"), Str("foo")]);
    assert d1.options + [Str("foo")] == [Str("name"), Str("foo")];
    assert Step(gen, d1, ms[1]) == Ok(d2);
    assert PropsOf(gen, ArrayExpression([])) == Ok([]);
    var d3 := d2.(options := [Str("name"), Str("foo"), Str("props")]);
    assert d2.options + [Str("props")] == [Str("name"), Str("foo"), Str("props")];
    assert Step(gen, d2, ms[2]) == Ok(d3);
    assert Apply(gen, d3, ms[2..][1..]) == Ok(d3);
    assert Apply(gen, d2, ms[2..]) == Ok(d3);
    assert Apply(gen, d1, ms[1..]) == Apply(gen, d2, ms[1..][1..]);
  }

  /** `props: ['a', b]` */
  lemma ArrayPropsExample(gen: Generator)
    ensures PropsOf(gen, ArrayExpression([Some(Literal(Str("a"))), Some(Identifier("b"))])) ==
      Ok([NameOnly(Str("a")), NameOnly(Str("b(var)"))])
  {
    var es := [Some(Literal(Str("a"))), Some(Identifier("b"))];
    assert es[1..] == [Some(Identifier("b"))] && es[1..][1..] == [];
    assert VarRef("b") == "b(var)";
    assert TryFlatMap(ArrayEntry, es[1..]) == Ok([NameOnly(Str("b(var)"))]) by {
      assert TryFlatMap(ArrayEntry, es[1..][1..]) == Ok([]);
      assert [NameOnly(Str("b(var)"))] + [] == [NameOnly(Str("b(var)"))];
    }
    assert ArrayEntry(es[0]) == Ok([NameOnly(Str("a"))]);
    assert TryFlatMap(ArrayEntry, es) == Prepend([NameOnly(Str("a"))], TryFlatMap(ArrayEntry, es[1..]));
    assert [NameOnly(Str("a"))] + [NameOnly(Str("b(var)"))] == [NameOnly(Str("a")), NameOnly(Str("b(var)"))];
    assert PropsOf(gen, ArrayExpression(es)) == TryFlatMap(ArrayEntry, es);
  }

  /** `props: { count: { type: Number, default: 0, required: true } }` */
  lemma DescribedPropExample(gen: Generator)
    ensures PropsOf(gen, ObjectExpression([Property(Identifier("count"), ObjectExpression([
        Property(Identifier("type"), Identifier("Number")),
        Property(Identifier("default"), Literal(Num(0))),
        Property(Identifier("required"), Literal(Bool(true)))]))])) ==
      Ok([Prop(Str("count"), Some("Number"), Some(Bool(true)), Some(Num(0)), None)])
  {
    var ds := [
        Property(Identifier("type"), Identifier("Number")),
        Property(Identifier("default"), Literal(Num(0))),
        Property(Identifier("required"), Literal(Bool(true)))];
    assert ds[1..] == [ds[1], ds[2]] && ds[1..][1..] == [ds[2]] && ds[1..][1..][1..] == [];
    assert !HasSpread(ds);
    assert "type" != "required" && "type" != "default" && "type" != "validator";
    assert "default" != "type" && "default" != "required" && "default" != "validator";
    assert "required" != "type" && "required" != "default" && "required" != "validator";
    assert LastValue(ds, "type") == Some(Identifier("Number"));
    assert LastValue(ds, "required") == Some(Literal(Bool(true)));
    assert LastValue(ds, "default") == Some(Literal(Num(0)));
    assert LastValue(ds, "validator") == None;
    var m := Property(Identifier("count"), ObjectExpression(ds));
    var p := Prop(Str("count"), Some("Number"), Some(Bool(true)), Some(Num(0)), None);
    assert [m][1..] == [];
    assert DescribedProp(gen, Str("count"), ds) == p;
    assert ObjectEntryOf(gen)(m) == Ok([p]);
    assert TryFlatMap(ObjectEntryOf(gen), [m]) == Prepend([p], TryFlatMap(ObjectEntryOf(gen), [m][1..]));
    assert [p] + [] == [p];
  }

  /** `methods: { greet(a, b) {} }` */
  lemma MethodExample(gen: Generator)
    ensures MethodsOf(gen, ObjectExpression([Property(Identifier("greet"),
        FunctionExpression([Identifier("a"), Identifier("b")], Other("BlockStatement", [])))])) ==
      [Member(Str("greet"), "Function(" + gen(Identifier("a")) + "," + gen(Identifier("b")) + ")")]
  {
    var ps := [Identifier("a"), Identifier("b")];
    MethodsOfOneMember(gen, Property(Identifier("greet"), FunctionExpression(ps, Other("BlockStatement", []))));
    assert ps[1..] == [Identifier("b")] && ps[1..][1..] == [];
    assert Map(gen, ps) == [gen(Identifier("a")), gen(Identifier("b"))];
    var x, y := gen(Identifier("a")), gen(Identifier("b"));
    assert [x, y][1..] == [y];
    assert Join([x, y], ",") == x + "," + y;
    assert "Function(" + (x + "," + y) + ")" == "Function(" + x + "," + y + ")";
  }
}
