/** `parseEvents` (parse.js:185-224): the `$emit(...)` call sites anywhere in
    the syntax tree. */
module Events {
  import opened Wrappers
  import opened Seqs
  import opened JsAst
  import opened Records
  import opened Traversal

  /** A call `x.$emit(...)`: the callee is a member access whose property
      is named `$emit`. */
  predicate IsEmitCall(n: Node)
  {
    n.CallExpression? && n.callee.MemberExpression? && NameOf(n.callee.property) == Str("$emit")
  }

  /** A call whose callee has no `.property`, so that reading
      `node.callee.property.name` throws. */
  predicate HasBareCallee(n: Node)
  {
    n.CallExpression? && !n.callee.MemberExpression?
  }

  /** The `enter` callback's effect on one examined node (parse.js:194-198). */
  function EmitCheck(n: Node): Result<seq<Node>, Failure>
  {
    if !n.CallExpression? then Ok([])
    else if !n.callee.MemberExpression? then Err(CalleeNotMember)
    else if NameOf(n.callee.property) == Str("$emit") then Ok([n])
    else Ok([])
  }

  /** `emitList` once the traversal is over. */
  function EmitCalls(ast: Node): Result<seq<Node>, Failure>
  {
    TryFlatMap(EmitCheck, PreOrder(ast))
  }

  predicate HasArguments(n: Node)
  {
    n.CallExpression? && |n.arguments| > 0
  }

  /** The event recorded for an emit call with at least one argument. */
  function EventOf(gen: Generator, call: Node): Event
  {
    Event(
      gen(call),
      if call.CallExpression? && |call.arguments| > 0 && call.arguments[0].Literal?
      then Some(call.arguments[0].value) else None,
      if call.CallExpression? && |call.arguments| > 1 then Some(gen(call.arguments[1])) else None)
  }

  /** The events of `calls`: one per call with arguments, in order. */
  function EventsFrom(gen: Generator, calls: seq<Node>): seq<Event>
  {
    if calls == [] then []
    else (if HasArguments(calls[0]) then [EventOf(gen, calls[0])] else []) + EventsFrom(gen, calls[1..])
  }

  lemma EventsFromAt(gen: Generator, calls: seq<Node>, i: int)
    requires 0 <= i < |calls|
    ensures EventsFrom(gen, calls[i..]) ==
      (if HasArguments(calls[i]) then [EventOf(gen, calls[i])] else []) + EventsFrom(gen, calls[i + 1..])
  {
    assert calls[i..][0] == calls[i];
    assert calls[i..][1..] == calls[i + 1..];
  }

  /** What `parseEvents(ast)` returns. */
  function EventsOf(gen: Generator, ast: Node): Result<seq<Event>, Failure>
  {
    var calls :- EmitCalls(ast);
    Ok(EventsFrom(gen, calls))
  }

  /** The `estraverse.traverse` call of `parseEvents` (parse.js:190-203):
      the `enter` callback runs on every examined node in pre-order and
      throws on a call with a bare callee. */
  method CollectEmits(ast: Node) returns (r: Result<seq<Node>, Failure>)
    ensures r == EmitCalls(ast)
    ensures r.Ok? ==> forall j :: 0 <= j < |r.value| ==> r.value[j].CallExpression?
  {
    var emitList: seq<Node> := [];
    var visited := PreOrder(ast);
    ghost var spec := EmitCalls(ast);
    assert visited[0..] == visited;
    PrependNil(spec);
    for i := 0 to |visited|
      invariant spec == Prepend(emitList, TryFlatMap(EmitCheck, visited[i..]))
      invariant forall j :: 0 <= j < |emitList| ==> emitList[j].CallExpression?
    {
      TryFlatMapAt(EmitCheck, visited, i);
      ghost var before := emitList;
      var node := visited[i];
      if node.CallExpression? {
        if !node.callee.MemberExpression? {
          return Err(CalleeNotMember);
        }
        if NameOf(node.callee.property) == Str("$emit") {
          emitList := emitList + [node];
        }
      }
      assert before + [] == before;
      assert emitList == before + EmitCheck(node).value;
      PrependPrepend(before, EmitCheck(node).value, TryFlatMap(EmitCheck, visited[i + 1..]));
    }
    assert visited[|visited|..] == [];
    PrependDone(emitList, TryFlatMap(EmitCheck, visited[|visited|..]));
    return Ok(emitList);
  }

  /** The `emitList.forEach` loop of `parseEvents` (parse.js:205-221): a
      call with no arguments is skipped, a literal first argument gives the
      name and a second argument the data. */
  method RecordEvents(gen: Generator, emitList: seq<Node>) returns (events: seq<Event>)
    requires forall j :: 0 <= j < |emitList| ==> emitList[j].CallExpression?
    ensures events == EventsFrom(gen, emitList)
  {
    events := [];
    assert emitList[0..] == emitList;
    for i := 0 to |emitList|
      invariant EventsFrom(gen, emitList) == events + EventsFrom(gen, emitList[i..])
    {
      EventsFromAt(gen, emitList, i);
      var emit := emitList[i];
      var args := emit.arguments;
      ghost var rest := EventsFrom(gen, emitList[i + 1..]);
      if |args| > 0 {
        var name: Option<Value> := None;
        var data: Option<string> := None;
        if args[0].Literal? {
          name := Some(args[0].value);
        }
        if |args| > 1 {
          data := Some(gen(args[1]));
        }
        assert Event(gen(emit), name, data) == EventOf(gen, emit);
        assert events + ([EventOf(gen, emit)] + rest) == (events + [EventOf(gen, emit)]) + rest;
        events := events + [Event(gen(emit), name, data)];
      } else {
        assert [] + rest == rest;
      }
    }
    assert emitList[|emitList|..] == [];
    assert events + [] == events;
  }

  /** `parseEvents(ast)`: collect `emitList`, then record its events. */
  method ParseEvents(gen: Generator, ast: Node) returns (r: Result<seq<Event>, Failure>)
    ensures r == EventsOf(gen, ast)
  {
    var collected := CollectEmits(ast);
    if collected.Err? {
      return Err(collected.error);
    }
    var events := RecordEvents(gen, collected.value);
    return Ok(events);
  }

  /** The traversal throws exactly when it examines a call with a bare
      callee; otherwise `emitList` is the examined `$emit` calls in
      pre-order. */
  lemma EmitCallsSpec(ast: Node)
    ensures EmitCalls(ast).Ok? <==> forall n :: n in PreOrder(ast) ==> !HasBareCallee(n)
    ensures EmitCalls(ast).Ok? ==> EmitCalls(ast).value == Filter(IsEmitCall, PreOrder(ast))
  {
    var vs := PreOrder(ast);
    TryFlatMapFilterMap(EmitCheck, IsEmitCall, Id, vs);
    MapId(Filter(IsEmitCall, vs));
    if !EmitCalls(ast).Ok? {
      var i :| 0 <= i < |vs| && !EmitCheck(vs[i]).Ok?;
      assert vs[i] in vs && HasBareCallee(vs[i]);
    } else {
      forall n | n in vs
        ensures !HasBareCallee(n)
      {
        var i :| 0 <= i < |vs| && vs[i] == n;
        assert EmitCheck(vs[i]).Ok?;
      }
    }
  }

  /** The scan covers the whole tree: it throws exactly when some call
      with a bare callee can be reached without crossing a spread, and
      otherwise lists exactly the reachable `$emit` calls, wherever they
      are written. */
  lemma EmitCallsReach(ast: Node, c: Node)
    ensures EmitCalls(ast).Err? <==> exists n :: Reaches(ast, n) && HasBareCallee(n)
    ensures EmitCalls(ast).Ok? ==> (c in EmitCalls(ast).value <==> Reaches(ast, c) && IsEmitCall(c))
  {
    EmitCallsSpec(ast);
    PreOrderReaches(ast, c);
    FilterKeeps(IsEmitCall, PreOrder(ast), c);
    if EmitCalls(ast).Err? {
      var n :| n in PreOrder(ast) && HasBareCallee(n);
      PreOrderReaches(ast, n);
    }
    if exists n :: Reaches(ast, n) && HasBareCallee(n) {
      var n :| Reaches(ast, n) && HasBareCallee(n);
      PreOrderReaches(ast, n);
    }
  }

  /** `e` is the event of the `$emit` call `c`, field by field. */
  predicate RecordsCall(gen: Generator, e: Event, c: Node)
  {
    IsEmitCall(c) && |c.arguments| > 0 &&
    e.code == gen(c) &&
    (e.name.Some? <==> c.arguments[0].Literal?) &&
    (e.name.Some? ==> e.name.value == c.arguments[0].value) &&
    (e.data.Some? <==> |c.arguments| > 1) &&
    (e.data.Some? ==> e.data.value == gen(c.arguments[1]))
  }

  /** `EventsFrom` keeps one event per call with arguments and drops the
      others: never more events than calls, each event comes from a call
      with arguments, and each such call has its event. */
  lemma {:induction false} EventsFromSpec(gen: Generator, calls: seq<Node>)
    ensures |EventsFrom(gen, calls)| <= |calls|
    ensures forall e :: e in EventsFrom(gen, calls) ==>
      exists c :: c in calls && HasArguments(c) && e == EventOf(gen, c)
    ensures forall c :: c in calls && HasArguments(c) ==> EventOf(gen, c) in EventsFrom(gen, calls)
  {
    if calls != [] {
      EventsFromSpec(gen, calls[1..]);
      assert calls == [calls[0]] + calls[1..];
      forall e | e in EventsFrom(gen, calls)
        ensures exists c :: c in calls && HasArguments(c) && e == EventOf(gen, c)
      {
        if e !in EventsFrom(gen, calls[1..]) {
          assert e == EventOf(gen, calls[0]);
        } else {
          var c :| c in calls[1..] && HasArguments(c) && e == EventOf(gen, c);
          assert c in calls;
        }
      }
    }
  }

  function EventOfG(gen: Generator): Node -> Event
  {
    c => EventOf(gen, c)
  }

  /** The recording loop is "select the calls with arguments, then build one
      event from each", so the events keep the order and the multiplicity of
      their calls. */
  lemma {:induction false} EventsFromIsFilterMap(gen: Generator, calls: seq<Node>)
    ensures EventsFrom(gen, calls) == Map(EventOfG(gen), Filter(HasArguments, calls))
  {
    if calls != [] {
      EventsFromIsFilterMap(gen, calls[1..]);
      MapAppend(EventOfG(gen), if HasArguments(calls[0]) then [calls[0]] else [],
                Filter(HasArguments, calls[1..]));
    }
  }

  /** One event per `$emit` call that has arguments, never more events than
      calls: every event is the record of such a call, field by field, and
      every such call has its event. */
  lemma EventsSpec(gen: Generator, ast: Node)
    ensures EventsOf(gen, ast).Ok? <==> EmitCalls(ast).Ok?
    ensures EventsOf(gen, ast).Ok? ==>
      var calls := EmitCalls(ast).value;
      var evs := EventsOf(gen, ast).value;
      |evs| <= |calls| &&
      evs == Map(EventOfG(gen), Filter(HasArguments, calls)) &&
      (forall e :: e in evs ==> exists c :: c in calls && RecordsCall(gen, e, c)) &&
      (forall c :: c in calls && HasArguments(c) ==> EventOf(gen, c) in evs)
  {
    if EventsOf(gen, ast).Ok? {
      var calls := EmitCalls(ast).value;
      var evs := EventsOf(gen, ast).value;
      EmitCallsSpec(ast);
      EventsFromSpec(gen, calls);
      EventsFromIsFilterMap(gen, calls);
      forall e | e in evs
        ensures exists c :: c in calls && RecordsCall(gen, e, c)
      {
        var c :| c in calls && HasArguments(c) && e == EventOf(gen, c);
        FilterKeeps(IsEmitCall, PreOrder(ast), c);
        assert RecordsCall(gen, e, c);
      }
      forall c | c in calls && HasArguments(c)
        ensures EventOf(gen, c) in evs
      {
        FilterKeeps(IsEmitCall, PreOrder(ast), c);
      }
    }
  }
}
