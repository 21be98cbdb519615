/** The records parse.js builds, and the TypeErrors it throws instead of
    building them. A field JavaScript leaves off an object is `None`. */
module Records {
  import opened Wrappers
  import opened JsAst

  /** One `TypeError` per place where parse.js reads a property of
      `undefined` or `null`. */
  datatype Failure =
    | HoleInPropsArray        // parse.js:16, `elem.type` on the `null` of a hole
    | SpreadInProps           // parse.js:34, `prop.value.type` on a spread member
    | SpreadInPropDescriptor  // parse.js:52, `item.key.name` on a spread member
    | ComponentsNotObject     // parse.js:171-173, the guard has no `return`
    | SpreadInComponents      // parse.js:174, `prop.value.type` on a spread member
    | CalleeNotMember         // parse.js:195, `node.callee.property.name`
    | SpreadAtTopLevel        // parse.js:281, `item.key.name` on a spread member

  /** An entry of `props`. */
  datatype Prop = Prop(
    name: Value,
    typeName: Option<string>,
    required: Option<Value>,
    default: Option<Value>,
    validator: Option<string>)

  /** An entry of `methods` or `computeds`. */
  datatype Member = Member(name: Value, code: string)

  /** An entry of `events`. */
  datatype Event = Event(code: string, name: Option<Value>, data: Option<string>)

  /** The object `parseCode` returns. `methods` is absent until a `methods`
      key is met. */
  datatype Descriptor = Descriptor(
    name: Value,
    options: seq<Value>,
    props: seq<Prop>,
    methods: Option<seq<Member>>,
    events: seq<Event>,
    components: seq<Value>,
    computeds: seq<Member>)

  /** The initial `parsed` object (parse.js:237-244). */
  const EmptyDescriptor := Descriptor(Str(""), [], [], None, [], [], [])

  /** `{name: v}` */
  function NameOnly(v: Value): Prop
  {
    Prop(v, None, None, None, None)
  }

  /** `id + '(var)'`, the marker for a value given by a variable. */
  function VarRef(id: string): string
  {
    id + "(var)"
  }
}
