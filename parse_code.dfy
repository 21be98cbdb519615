/** `parseCode` (parse.js:226-304): find the exported component object,
    collect the events of the whole module, then fold the exported object's
    members into the descriptor. The source text is taken already parsed:
    `ast` is what espree returns for it. */
module ParseCode {
  import opened Wrappers
  import opened Seqs
  import opened JsAst
  import opened Records
  import opened Traversal
  import opened Props
  import opened Methods
  import opened Components
  import opened Events

  /** What the export-finding callback records for one examined node
      (parse.js:253-267): the declaration of `export default`, or the
      right-hand side of `module.exports = ...`. */
  function ExportTarget(n: Node): Option<Node>
  {
    match n
    case ExportDefaultDeclaration(d) => Some(d)
    case AssignmentExpression(MemberExpression(o, p), rhs) =>
      if NameOf(o) == Str("module") && NameOf(p) == Str("exports") then Some(rhs) else None
    case _ => None
  }

  /** The first recorded target: the callback calls `this.break()` as soon
      as it records one. */
  function FirstTarget(vs: seq<Node>): Option<Node>
  {
    if vs == [] then None
    else if ExportTarget(vs[0]).Some? then ExportTarget(vs[0])
    else FirstTarget(vs[1..])
  }

  /** `exportObj` once the traversal of parse.js:248-269 is over. */
  function ExportObject(ast: Node): Option<Node>
  {
    FirstTarget(PreOrder(ast))
  }

  /** `exportObj.properties || []` */
  function PropertyList(obj: Node): seq<ObjMember>
  {
    if obj.ObjectExpression? then obj.properties else []
  }

  /** `item.key.name` for a member that has a key. */
  function KeyName(m: ObjMember): Value
  {
    if m.Property? then NameOf(m.key) else Undefined
  }

  /** The `forEach` callback of parse.js:279-300 on one member of the
      exported object: record its key in `options`, then dispatch on the
      key. A spread member has no key and throws. */
  function Step(gen: Generator, d: Descriptor, m: ObjMember): Result<Descriptor, Failure>
  {
    match m
    case ExperimentalSpreadProperty(_) => Err(SpreadAtTopLevel)
    case Property(k, v) =>
      var d1 := d.(options := d.options + [NameOf(k)]);
      if NameOf(k) == Str("name") then Ok(d1.(name := ValueOf(v)))
      else if NameOf(k) == Str("props") then
        var ps :- PropsOf(gen, v);
        Ok(d1.(props := ps))
      else if NameOf(k) == Str("methods") then Ok(d1.(methods := Some(MethodsOf(gen, v))))
      else if NameOf(k) == Str("components") then
        var cs :- ComponentsOf(v);
        Ok(d1.(components := cs))
      else if NameOf(k) == Str("computed") then Ok(d1.(computeds := MethodsOf(gen, v)))
      else Ok(d1)
  }

  /** `propertyList.forEach(...)` from the state `d`. */
  function Apply(gen: Generator, d: Descriptor, ms: seq<ObjMember>): Result<Descriptor, Failure>
    decreases |ms|
  {
    if ms == [] then Ok(d)
    else
      var d1 :- Step(gen, d, ms[0]);
      Apply(gen, d1, ms[1..])
  }

  /** What `parseCode` returns: the initial descriptor when nothing is
      exported; otherwise the events of the whole tree, then the exported
      object's members applied in order. */
  function DescriptorOf(gen: Generator, ast: Node): Result<Descriptor, Failure>
  {
    match ExportObject(ast)
    case None => Ok(EmptyDescriptor)
    case Some(obj) =>
      var evs :- EventsOf(gen, ast);
      Apply(gen, EmptyDescriptor.(events := evs), PropertyList(obj))
  }

  /** The export-finding traversal of parse.js:247-269. */
  method FindExport(ast: Node) returns (exportObj: Option<Node>)
    ensures exportObj == ExportObject(ast)
  {
    exportObj := None;
    var visited := PreOrder(ast);
    assert visited[0..] == visited;
    var i := 0;
    while i < |visited|
      invariant 0 <= i <= |visited|
      invariant FirstTarget(visited) == FirstTarget(visited[i..])
      invariant exportObj == None
    {
      assert visited[i..][0] == visited[i];
      assert visited[i..][1..] == visited[i + 1..];
      var node := visited[i];
      if node.ExportDefaultDeclaration? {
        exportObj := Some(node.declaration);
        return;
      }
      if node.AssignmentExpression? && node.left.MemberExpression?
        && NameOf(node.left.obj) == Str("module") && NameOf(node.left.property) == Str("exports")
      {
        exportObj := Some(node.right);
        return;
      }
      i := i + 1;
    }
  }

  /** The `forEach` callback on one member. */
  method ApplyItem(gen: Generator, parsed: Descriptor, item: ObjMember) returns (r: Result<Descriptor, Failure>)
    ensures r == Step(gen, parsed, item)
  {
    if item.ExperimentalSpreadProperty? {
      return Err(SpreadAtTopLevel);
    }
    var next := parsed.(options := parsed.options + [NameOf(item.key)]);
    var key := NameOf(item.key);
    if key == Str("name") {
      next := next.(name := ValueOf(item.value));
    } else if key == Str("props") {
      var props := ParseProps(gen, item.value);
      if props.Err? {
        return Err(props.error);
      }
      next := next.(props := props.value);
    } else if key == Str("methods") {
      var methods := ParseMethods(gen, item.value);
      next := next.(methods := Some(methods));
    } else if key == Str("components") {
      var components := ParseComponents(item.value);
      if components.Err? {
        return Err(components.error);
      }
      next := next.(components := components.value);
    } else if key == Str("computed") {
      var computeds := ParseMethods(gen, item.value);
      next := next.(computeds := computeds);
    }
    return Ok(next);
  }

  /** One unfolding of `Apply` on the suffix that starts at `i`. */
  lemma ApplyAt(gen: Generator, d: Descriptor, ms: seq<ObjMember>, i: int)
    requires 0 <= i < |ms|
    ensures Apply(gen, d, ms[i..]) ==
      match Step(gen, d, ms[i])
      case Err(e) => Err(e)
      case Ok(d1) => Apply(gen, d1, ms[i + 1..])
  {
    assert ms[i..][0] == ms[i];
    assert ms[i..][1..] == ms[i + 1..];
  }

  /** `parseCode(code)`, given the tree espree parses `code` into. */
  method ParseCodeOf(gen: Generator, ast: Node) returns (r: Result<Descriptor, Failure>)
    ensures r == DescriptorOf(gen, ast)
    ensures ExportObject(ast).None? ==> r == Ok(EmptyDescriptor)
  {
    var parsed := EmptyDescriptor;
    var exportObj := FindExport(ast);
    if exportObj.None? {
      return Ok(parsed);
    }
    var obj := exportObj.value;
    var propertyList := if obj.ObjectExpression? then obj.properties else [];
    var events := ParseEvents(gen, ast);
    if events.Err? {
      return Err(events.error);
    }
    parsed := parsed.(events := events.value);
    ghost var spec := Apply(gen, parsed, propertyList);
    assert propertyList[0..] == propertyList;
    for i := 0 to |propertyList|
      invariant spec == Apply(gen, parsed, propertyList[i..])
    {
      ApplyAt(gen, parsed, propertyList, i);
      var next := ApplyItem(gen, parsed, propertyList[i]);
      if next.Err? {
        return Err(next.error);
      }
      parsed := next.value;
    }
    assert propertyList[|propertyList|..] == [];
    return Ok(parsed);
  }

  /** The traversal stops at the first node that records a target: the
      result is that node's target, and no node examined before it records
      one. */
  lemma {:induction false} FirstTargetSpec(vs: seq<Node>, d: Node)
    ensures FirstTarget(vs) == Some(d) <==>
      exists i :: 0 <= i < |vs| && ExportTarget(vs[i]) == Some(d) &&
        forall j :: 0 <= j < i ==> ExportTarget(vs[j]).None?
    ensures FirstTarget(vs).None? <==> forall i :: 0 <= i < |vs| ==> ExportTarget(vs[i]).None?
  {
    if vs != [] {
      FirstTargetSpec(vs[1..], d);
      assert forall i :: 1 <= i < |vs| ==> vs[i] == vs[1..][i - 1];
      if ExportTarget(vs[0]).None? {
        if FirstTarget(vs) == Some(d) {
          var k :| 0 <= k < |vs[1..]| && ExportTarget(vs[1..][k]) == Some(d) &&
            forall j :: 0 <= j < k ==> ExportTarget(vs[1..][j]).None?;
          assert ExportTarget(vs[k + 1]) == Some(d);
        }
        if exists i :: 0 <= i < |vs| && ExportTarget(vs[i]) == Some(d) &&
            forall j :: 0 <= j < i ==> ExportTarget(vs[j]).None? {
          var i :| 0 <= i < |vs| && ExportTarget(vs[i]) == Some(d) &&
            forall j :: 0 <= j < i ==> ExportTarget(vs[j]).None?;
          assert i > 0;
          assert ExportTarget(vs[1..][i - 1]) == Some(d);
          assert forall j :: 0 <= j < i - 1 ==> ExportTarget(vs[1..][j]).None?;
        }
      }
    }
  }

  /** Nothing is exported exactly when no node reachable without crossing a
      spread is an `export default` or a `module.exports = ...`. */
  lemma ExportObjectReach(ast: Node)
    ensures ExportObject(ast).None? <==> forall n :: Reaches(ast, n) ==> ExportTarget(n).None?
  {
    var vs := PreOrder(ast);
    FirstTargetSpec(vs, ast);
    if ExportObject(ast).None? {
      forall n | Reaches(ast, n)
        ensures ExportTarget(n).None?
      {
        PreOrderReaches(ast, n);
        var i :| 0 <= i < |vs| && vs[i] == n;
      }
    } else {
      var i :| 0 <= i < |vs| && ExportTarget(vs[i]).Some?;
      PreOrderReaches(ast, vs[i]);
    }
  }

  /** A member the callback gets through: it has a key, and its `props` or
      `components` value (if that is its key) is parsed without a throw. */
  predicate Accepted(gen: Generator, m: ObjMember)
  {
    m.Property? &&
    (HasKey(m, "props") ==> PropsOf(gen, m.value).Ok?) &&
    (HasKey(m, "components") ==> ComponentsOf(m.value).Ok?)
  }

  /** Whether the callback throws depends on the member only. */
  lemma StepOk(gen: Generator, d: Descriptor, m: ObjMember)
    ensures Step(gen, d, m).Ok? <==> Accepted(gen, m)
  {
  }

  /** The loop gets through exactly when every member is accepted. */
  lemma {:induction false} ApplyOk(gen: Generator, d: Descriptor, ms: seq<ObjMember>)
    ensures Apply(gen, d, ms).Ok? <==> forall i :: 0 <= i < |ms| ==> Accepted(gen, ms[i])
    decreases |ms|
  {
    if ms != [] {
      StepOk(gen, d, ms[0]);
      assert forall i :: 1 <= i < |ms| ==> ms[i] == ms[1..][i - 1];
      if Step(gen, d, ms[0]).Ok? {
        ApplyOk(gen, Step(gen, d, ms[0]).value, ms[1..]);
        if !Apply(gen, d, ms).Ok? {
          var k :| 0 <= k < |ms[1..]| && !Accepted(gen, ms[1..][k]);
          assert !Accepted(gen, ms[k + 1]);
        }
      }
    }
  }

  /** The loop records every key in `options`, in member order, and never
      touches `events`. */
  lemma {:induction false} ApplyOptions(gen: Generator, d: Descriptor, ms: seq<ObjMember>)
    requires Apply(gen, d, ms).Ok?
    ensures Apply(gen, d, ms).value.options == d.options + Map(KeyName, ms)
    ensures Apply(gen, d, ms).value.events == d.events
    decreases |ms|
  {
    if ms != [] {
      var d1 := Step(gen, d, ms[0]).value;
      ApplyOptions(gen, d1, ms[1..]);
      assert d1.options == d.options + [KeyName(ms[0])];
      assert d1.events == d.events;
    }
  }

  /** `name` holds the `.value` of the last `name` member's value. */
  lemma {:induction false} ApplyName(gen: Generator, d: Descriptor, ms: seq<ObjMember>)
    requires Apply(gen, d, ms).Ok?
    ensures Apply(gen, d, ms).value.name ==
      match LastValue(ms, "name") case Some(v) => ValueOf(v) case None => d.name
    decreases |ms|
  {
    if ms != [] {
      var d1 := Step(gen, d, ms[0]).value;
      ApplyName(gen, d1, ms[1..]);
      assert d1.name == if HasKey(ms[0], "name") then ValueOf(ms[0].value) else d.name;
    }
  }

  /** `props` holds what `parseProps` gives for the last `props` member. */
  lemma {:induction false} ApplyProps(gen: Generator, d: Descriptor, ms: seq<ObjMember>)
    requires Apply(gen, d, ms).Ok?
    ensures match LastValue(ms, "props")
      case Some(v) => PropsOf(gen, v) == Ok(Apply(gen, d, ms).value.props)
      case None => Apply(gen, d, ms).value.props == d.props
    decreases |ms|
  {
    if ms != [] {
      var d1 := Step(gen, d, ms[0]).value;
      ApplyProps(gen, d1, ms[1..]);
      if HasKey(ms[0], "props") {
        assert PropsOf(gen, ms[0].value) == Ok(d1.props);
      } else {
        assert d1.props == d.props;
      }
    }
  }

  /** `methods` is present exactly when some member is keyed `methods`,
      and then holds the records of the last one. */
  lemma {:induction false} ApplyMethods(gen: Generator, d: Descriptor, ms: seq<ObjMember>)
    requires Apply(gen, d, ms).Ok?
    ensures Apply(gen, d, ms).value.methods ==
      match LastValue(ms, "methods") case Some(v) => Some(MethodsOf(gen, v)) case None => d.methods
    decreases |ms|
  {
    if ms != [] {
      var d1 := Step(gen, d, ms[0]).value;
      ApplyMethods(gen, d1, ms[1..]);
      assert d1.methods == if HasKey(ms[0], "methods") then Some(MethodsOf(gen, ms[0].value)) else d.methods;
    }
  }

  /** `components` holds what `parseComponents` gives for the last
      `components` member. */
  lemma {:induction false} ApplyComponents(gen: Generator, d: Descriptor, ms: seq<ObjMember>)
    requires Apply(gen, d, ms).Ok?
    ensures match LastValue(ms, "components")
      case Some(v) => ComponentsOf(v) == Ok(Apply(gen, d, ms).value.components)
      case None => Apply(gen, d, ms).value.components == d.components
    decreases |ms|
  {
    if ms != [] {
      var d1 := Step(gen, d, ms[0]).value;
      ApplyComponents(gen, d1, ms[1..]);
      if HasKey(ms[0], "components") {
        assert ComponentsOf(ms[0].value) == Ok(d1.components);
      } else {
        assert d1.components == d.components;
      }
    }
  }

  /** `computeds` holds the records of the last `computed` member. */
  lemma {:induction false} ApplyComputeds(gen: Generator, d: Descriptor, ms: seq<ObjMember>)
    requires Apply(gen, d, ms).Ok?
    ensures Apply(gen, d, ms).value.computeds ==
      match LastValue(ms, "computed") case Some(v) => MethodsOf(gen, v) case None => d.computeds
    decreases |ms|
  {
    if ms != [] {
      var d1 := Step(gen, d, ms[0]).value;
      ApplyComputeds(gen, d1, ms[1..]);
      assert d1.computeds == if HasKey(ms[0], "computed") then MethodsOf(gen, ms[0].value) else d.computeds;
    }
  }

  /** The overall shape of the result: nothing exported gives the initial
      descriptor (even when the module has `$emit` calls that would throw);
      otherwise a throw while collecting events comes first; a non-object
      export gives the initial descriptor with the events; and a successful
      result carries the events of the whole tree and one option per member
      of the exported object. */
  lemma DescriptorShape(gen: Generator, ast: Node)
    ensures ExportObject(ast).None? ==> DescriptorOf(gen, ast) == Ok(EmptyDescriptor)
    ensures ExportObject(ast).Some? && EventsOf(gen, ast).Err? ==>
      DescriptorOf(gen, ast) == Err(EventsOf(gen, ast).error)
    ensures ExportObject(ast).Some? && !ExportObject(ast).value.ObjectExpression? && EventsOf(gen, ast).Ok? ==>
      DescriptorOf(gen, ast) == Ok(EmptyDescriptor.(events := EventsOf(gen, ast).value))
    ensures ExportObject(ast).Some? && DescriptorOf(gen, ast).Ok? ==>
      DescriptorOf(gen, ast).value.events == EventsOf(gen, ast).value &&
      DescriptorOf(gen, ast).value.options == Map(KeyName, PropertyList(ExportObject(ast).value))
  {
    if ExportObject(ast).Some? && EventsOf(gen, ast).Ok? {
      var evs := EventsOf(gen, ast).value;
      var ms := PropertyList(ExportObject(ast).value);
      if Apply(gen, EmptyDescriptor.(events := evs), ms).Ok? {
        ApplyOptions(gen, EmptyDescriptor.(events := evs), ms);
      }
    }
  }
}
