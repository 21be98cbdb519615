# jsdoc-vue-component: the component extractor, modelled in Dafny

jsdoc-vue-component documents Vue single-file components. Its core is
`parseCode` in parse.js. It takes the script of a component, finds the
exported component object, and returns a descriptor with these fields:

- the component `name`;
- the list of top-level `options` (the keys);
- the declared `props`, `methods`, `computed` members and sub-`components`;
- the `events` the module emits with `this.$emit(...)`.

This project models that extractor on a syntax tree. It proves what each field
holds, when the extractor throws, and how the tree walk finds the export and the
events.

Modules, one per part of parse.js:

- `JsAst`: the syntax tree (`Node`, `ObjMember`) and the JavaScript values copied
  out of it. It also defines `NameOf`/`ValueOf`, the `.name`/`.value` reads that
  give `undefined` on the wrong node kind, and `LastValue`, the "last assignment
  wins" lookup the sub-property loop performs.
- `Traversal`: the estraverse walk both visitors perform. It is depth-first and
  pre-order, and it prunes the kinds in `skips`.
- `Records`: the records the extractor builds, and `Failure`, one constructor
  per place where the code throws a TypeError instead of degrading.
- `Props`, `Methods`, `Components`, `Events`, `ParseCode`: one module per
  function of parse.js.
  - Each has a method with the source's loops.
  - Each has a specification function the method is proved equal to.
  - Each has lemmas that state the function's meaning against an independent
    description. Usually that description is "select the members of a given
    shape, then build one record from each" (`Map`/`Filter` in `Seqs`).
- `Scenarios`: small inputs written out as trees, each with a lemma stating
  what the extractor makes of it.
  - `EmitInComputedIsFound` and `NoExportGivesDefaults` state the descriptor
    of a whole module.
  - `OptionsInSourceOrder` states what the member loop makes of a list of
    top-level members.
  - `ArrayPropsExample`, `DescribedPropExample` and `MethodExample` state what
    `parseProps` or `parseMethods` returns for one option value.

The code generator escodegen is taken as a parameter `gen: Node -> string` and is
never interpreted. Every `code`/`data`/`Function(...)` text is stated in terms of
what `gen` prints. The source text is taken already parsed: the model starts from
the tree.

The code behaves as follows where a reader of a component might expect
otherwise, and the model follows the code:

- **`type` literal.** A literal `type` in a prop declaration leaves `type`
  absent. The code has branches for functions and identifiers only
  (parse.js:67-80).
- **Non-object `components`.** A non-object `components` value throws: the guard
  at parse.js:171 has no `return`. It does not leave the field empty.
- **TypeErrors.** The extractor throws in seven places, not only on syntax
  errors:
  - a hole in a `props` array (parse.js:16);
  - a spread in the `props` object (parse.js:34);
  - a spread in a prop declaration (parse.js:52);
  - a non-object `components` (parse.js:173);
  - a spread in `components` (parse.js:174);
  - a call whose callee is not a member access, anywhere in the module
    (parse.js:195);
  - a spread at the top of the exported object (parse.js:281).
- **Where a spread is harmless.** A spread member throws in four places:
  - at the top of the exported object (parse.js:281);
  - in `props` (parse.js:34);
  - in a prop declaration (parse.js:52);
  - in `components` (parse.js:174).

  It is skipped in `methods` and `computed` (parse.js:142). Everywhere else the
  walk prunes it (parse.js:192).
- **Any declaration is exported.** The export object is whatever the first
  `export default` declares, or what the first `module.exports =` assigns, even
  when it is not an object literal. A non-object gives no options.
- **When the event scan runs.** It runs only when an export was found, and before
  the members are read. Its throw therefore comes first.

## Model

| member | source | states |
|---|---|---|
| JsAst.LastValueSnoc | parse.js:51-64 | appending a member makes it the holder of its key, and leaves every other key's holder unchanged |
| JsAst.LastValueIsLastOccurrence | parse.js:51-64 | the sub-property loop ends holding `v` for a key iff some member with that key has value `v` and no later member has the key; it holds nothing iff no member has the key |
| JsAst.LastValueSwap | parse.js:51-64 | swapping two neighbouring members with different keys never changes what any key ends up holding, so sub-field order is irrelevant |
| Traversal.PreOrderReaches | parse.js:190-203 | the walk examines a node iff it lies below the root with no skipped-kind node on the path |
| Traversal.PreOrderNeverSkipped | parse.js:192 | no node of a kind in `skips` is ever examined |
| Traversal.SpreadIsPruned | parse.js:192 | inserting a spread member, with any argument, into an object literal leaves the walk below that object unchanged |
| Props.ParsePropDescriptor | parse.js:41-126 | throws exactly when the declaration holds a spread; otherwise gives the record built from the last `type`/`required`/`default`/`validator` members by the per-field rules |
| Props.ParseProps | parse.js:7-131 | the loops over the array or object form compute `PropsOf`, including the throw of the first bad element or member |
| Props.PropsByShape | parse.js:12-41 | array form: no throw iff there are no holes, and then one record per literal or identifier element in order. Object form: no throw iff no member is a spread and no declaration holds one, and then one record per identifier- or object-valued member, in order, never more records than members. Any other value gives `[]` |
| Props.ArrayPropsError | parse.js:14-16 | the array form fails iff it has a hole, and then with the hole failure |
| Props.ObjectPropsFirstError | parse.js:32-52 | the object form fails with `e` iff some member is unreadable, `e` is the failure of that member's kind (a spread member at 34, a spread inside its declaration at 52), and every earlier member is readable |
| Props.ArrayPropsAreNamesOnly | parse.js:13-27 | array-form records carry a name and no other field |
| Methods.ParseMethods | parse.js:133-163 | computes `MethodsOf`: `[]` for a non-object, else one record per function- or identifier-valued member in order; never longer than the member list |
| Methods.MethodsInOrder | parse.js:141-160 | the records of `a + b` are the records of `a` followed by those of `b` |
| Methods.MethodsOfOneMember | parse.js:142-159 | a function member gives `Function(<generated params joined by ,>)`, an identifier `x(var)`; a spread, an arrow function or a literal gives nothing |
| Methods.MethodsComeFromMembers | parse.js:141-160 | every record is the record of some function- or identifier-valued member |
| Components.ParseComponents | parse.js:165-183 | computes `ComponentsOf`, including the throw on a non-object value and on a spread member |
| Components.ComponentsByShape | parse.js:171-180 | a non-object throws; an object throws iff it holds a spread, and otherwise gives `x(var)` per identifier and the value per literal, in order, skipping the rest, never more entries than members |
| Events.CollectEmits | parse.js:190-203 | the traversal computes `EmitCalls`: it throws at the first examined call with a bare callee, and otherwise collects every examined `$emit` call |
| Events.RecordEvents | parse.js:205-221 | one event per collected call with arguments, built by the name/data rules, in order |
| Events.ParseEvents | parse.js:185-224 | computes `EventsOf`, the throw of the traversal included |
| Events.EmitCallsSpec | parse.js:191-198 | the traversal succeeds iff no examined node is a call with a bare callee, and then collects exactly the examined `$emit` calls in pre-order |
| Events.EmitCallsReach | parse.js:190-203 | it throws iff such a call is reachable anywhere in the tree; otherwise a node is collected iff it is reachable and an `$emit` call, whichever option it is written under |
| Events.EventsFromSpec | parse.js:205-221 | never more events than calls; every event is the event of a call with arguments, and every such call has its event |
| Events.EventsFromIsFilterMap | parse.js:205-221 | the recording loop selects the calls with arguments and builds one event from each, keeping their order and multiplicity |
| Events.EventsSpec | parse.js:205-221 | every event matches one collected `$emit` call field by field: `code` is the call, `name` is present iff argument 0 is a literal and is then its value, `data` is present iff there is a second argument and is then its text; calls without arguments are dropped; events come in call order, one per call with arguments; the event scan fails iff the traversal fails |
| ParseCode.FindExport | parse.js:247-269 | the traversal with `this.break()` computes `ExportObject`, the target of the first examined export |
| ParseCode.FirstTargetSpec | parse.js:248-269 | the export is `d` iff some examined node records `d` and no earlier one records anything; none is found iff no examined node records one |
| ParseCode.ExportObjectReach | parse.js:248-269 | nothing is exported iff no reachable node is an `export default` or a `module.exports = ...` assignment |
| ParseCode.ApplyItem | parse.js:279-300 | the `forEach` callback on one member computes `Step`: record the key, then dispatch on it |
| ParseCode.StepOk | parse.js:279-300 | whether the callback throws depends only on the member: it must have a key, and its `props`/`components` value must parse |
| ParseCode.ApplyOk | parse.js:279-300 | the member loop gets through iff every member passes that test |
| ParseCode.ApplyOptions | parse.js:279-281 | `options` gains every key in member order, duplicates and unknown keys included; `events` is untouched |
| ParseCode.ApplyName | parse.js:284-286 | `name` is the `.value` of the last `name` member's value (`undefined` for a non-literal), or unchanged when there is none |
| ParseCode.ApplyProps | parse.js:287-289 | `props` is what `parseProps` gives for the last `props` member, or unchanged when there is none |
| ParseCode.ApplyMethods | parse.js:290-292 | `methods` is present exactly when some member is keyed `methods`, and is then the records of the last one |
| ParseCode.ApplyComponents | parse.js:293-295 | `components` is what `parseComponents` gives for the last `components` member, or unchanged |
| ParseCode.ApplyComputeds | parse.js:296-298 | `computeds` is the records of the last `computed` member, or unchanged |
| ParseCode.ParseCodeOf | parse.js:226-304 | computes `DescriptorOf`; with no export it returns the initial descriptor |
| ParseCode.DescriptorShape | parse.js:237-281 | no export gives the initial descriptor (no `methods` field) whatever the event scan would give; a throw of the event scan comes first; a non-object export gives the initial descriptor plus the events; a result carries the events of the whole tree and one option per member of the export |
| Scenarios.EmitInComputedIsFound | parse.js:185-224 | `this.$emit('changed', value)` inside a computed function is found and is the only event, with name `'changed'` and data the text of `value` |
| Scenarios.NoExportGivesDefaults | parse.js:246-271 | a module without export gives the initial descriptor even though its `foo()` call would make the event scan throw |
| Scenarios.OptionsInSourceOrder | parse.js:279-300 | `{name: 'x', foo: 1, props: []}` gives options `name, foo, props` and name `'x'` |
| Scenarios.ArrayPropsExample | parse.js:13-27 | `props: ['a', b]` gives `{name: 'a'}, {name: 'b(var)'}` |
| Scenarios.DescribedPropExample | parse.js:40-127 | `count: {type: Number, default: 0, required: true}` gives `type 'Number'`, `default 0`, `required true` and no validator |
| Scenarios.MethodExample | parse.js:141-160 | `greet(a, b) {}` gives `Function(<a>,<b>)` |

## Left out

- Parsing is not modelled (parse.js:229-235): espree and its SyntaxError are
  outside the model, which starts from the tree.
- Generated text: escodegen's output is the parameter `gen`. The model says
  nothing about the text it prints.
- Logging: the `log(...)` calls (parse.js:8, 134, 166, 227) have no effect on
  the result and are dropped.
- index.js and util.js are not part of this model:
  - Babel and vue-template-compiler are foreign library calls.
  - Executing the component with `vm` runs user code.
  - Markdown rendering, the jsdoc hooks and the cache belong to the host.
  - util.js reads configuration and writes to the console.
- Test script: test/parse.js prints fixture results and has no assertions.
- estraverse internals are replaced by the ordered child list of each `Node`:
  - The error estraverse raises on a node kind it does not know is not modelled.
  - The `parent` argument and the empty `leave` callback are not modelled.
  - The `enter` call on each `Property` wrapper is not modelled. The callbacks
    ignore property wrappers, so this changes nothing.
- Numbers: a numeric literal is `Num(int)`, so fractions, `NaN` and precision
  are outside the model. A regular-expression literal's value object is not
  modelled either, and neither are the `async`/`generator` flags or the `id` of
  a function expression.
- Other node kinds: any kind outside the modelled set is an `Other` node with
  only a kind and children.
  - Nothing stops an `Other` node from carrying the name of a modelled kind,
    and nothing stops a `Literal` from holding `undefined`. espree never
    produces such trees. The model treats such an `Other` node as a node of an
    unmodelled kind, whatever name it carries.
  - Such a node's own `.name`, `.value`, `.property` or `.properties` reads as
    `undefined`.
  - A call through `new.target` (a MetaProperty callee, which does have a
    `property`) therefore counts as a bare callee.
- Events.CollectEmits and Events.RecordEvents split the one function
  `parseEvents` at the point where its traversal ends. ParseCode.FindExport and
  ParseCode.ApplyItem are the traversal and the `forEach` callback of
  `parseCode`. They are separate methods so that each loop has a small proof.
