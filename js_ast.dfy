/** The ECMAScript syntax tree the extractor reads: the node kinds parse.js
    tests by `node.type`, in the shape espree produces them. Every other kind
    is an `Other` node that keeps its kind name and its ordered children. */
module JsAst {
  import opened Wrappers
  import opened Seqs

  /** A JavaScript value as far as the extractor copies one: a literal's
      `.value`, or the `undefined` a missing `.name`/`.value` reads as. */
  datatype Value = Undefined | Null | Bool(b: bool) | Num(n: int) | Str(s: string)

  datatype Node =
    | Literal(value: Value)
    | Identifier(name: string)
      // a hole, as in `[a, , b]`, is stored by espree as `null`: here `None`
    | ArrayExpression(elements: seq<Option<Node>>)
    | ObjectExpression(properties: seq<ObjMember>)
    | FunctionExpression(params: seq<Node>, body: Node)
    | CallExpression(callee: Node, arguments: seq<Node>)
    | MemberExpression(obj: Node, property: Node)
    | ExportDefaultDeclaration(declaration: Node)
    | AssignmentExpression(left: Node, right: Node)
    | Other(kind: string, children: seq<Node>)

  /** An entry of an object literal: `key: value` (also the method and
      shorthand forms), or the `...argument` spread, which has neither a key
      nor a value. */
  datatype ObjMember =
    | Property(key: Node, value: Node)
    | ExperimentalSpreadProperty(argument: Node)

  /** The code generator (escodegen's `generate`), left uninterpreted. */
  type Generator = Node -> string

  /** `node.type` */
  function Kind(n: Node): string
  {
    match n
    case Literal(_) => "Literal"
    case Identifier(_) => "Identifier"
    case ArrayExpression(_) => "ArrayExpression"
    case ObjectExpression(_) => "ObjectExpression"
    case FunctionExpression(_, _) => "FunctionExpression"
    case CallExpression(_, _) => "CallExpression"
    case MemberExpression(_, _) => "MemberExpression"
    case ExportDefaultDeclaration(_) => "ExportDefaultDeclaration"
    case AssignmentExpression(_, _) => "AssignmentExpression"
    case Other(k, _) => k
  }

  /** `member.type` */
  function MemberKind(m: ObjMember): string
  {
    match m
    case Property(_, _) => "Property"
    case ExperimentalSpreadProperty(_) => "ExperimentalSpreadProperty"
  }

  /** `node.name`: only an identifier has one. */
  function NameOf(n: Node): Value
  {
    if n.Identifier? then Str(n.name) else Undefined
  }

  /** `node.value`: only a literal has one. */
  function ValueOf(n: Node): Value
  {
    if n.Literal? then n.value else Undefined
  }

  /** `member.key.name == key` */
  predicate HasKey(m: ObjMember, key: string)
  {
    m.Property? && NameOf(m.key) == Str(key)
  }

  /** The value of the LAST member whose key is `key`: a loop that assigns a
      variable each time it meets that key ends holding this one. */
  function LastValue(ms: seq<ObjMember>, key: string): Option<Node>
  {
    if ms == [] then None
    else match LastValue(ms[1..], key)
      case Some(v) => Some(v)
      case None => if HasKey(ms[0], key) then Some(ms[0].value) else None
  }

  predicate HasSpread(ms: seq<ObjMember>)
  {
    exists i :: 0 <= i < |ms| && ms[i].ExperimentalSpreadProperty?
  }

  /** A function's parameters, as parse.js renders them:
      `Function(${params.map(generate).join(',')})`. */
  function Signature(gen: Generator, params: seq<Node>): string
  {
    "Function(" + Join(Map(gen, params), ",") + ")"
  }

  /** Appending one member to a list moves the last occurrence of its key to
      that member and leaves every other key's last occurrence alone. */
  lemma {:induction false} LastValueSnoc(ms: seq<ObjMember>, m: ObjMember, key: string)
    ensures LastValue(ms + [m], key) ==
      if HasKey(m, key) then Some(m.value) else LastValue(ms, key)
  {
    if ms == [] {
      assert ms + [m] == [m];
      assert [m][1..] == [];
    } else {
      assert (ms + [m])[0] == ms[0];
      assert (ms + [m])[1..] == ms[1..] + [m];
      LastValueSnoc(ms[1..], m, key);
    }
  }

  /** "The last occurrence wins": `LastValue` finds `v` exactly when some
      member with that key holds `v` and no later member has the key, and
      finds nothing exactly when no member has the key. */
  lemma {:induction false} LastValueIsLastOccurrence(ms: seq<ObjMember>, key: string, v: Node)
    ensures LastValue(ms, key) == Some(v) <==>
      exists i :: 0 <= i < |ms| && HasKey(ms[i], key) && ms[i].value == v &&
        forall j :: i < j < |ms| ==> !HasKey(ms[j], key)
    ensures LastValue(ms, key).None? <==> forall i :: 0 <= i < |ms| ==> !HasKey(ms[i], key)
  {
    if ms != [] {
      LastValueIsLastOccurrence(ms[1..], key, v);
      assert forall i :: 1 <= i < |ms| ==> ms[i] == ms[1..][i - 1];
      if LastValue(ms[1..], key).Some? {
        var w := LastValue(ms[1..], key).value;
        LastValueIsLastOccurrence(ms[1..], key, w);
        var k :| 0 <= k < |ms[1..]| && HasKey(ms[1..][k], key) && ms[1..][k].value == w &&
          forall j :: k < j < |ms[1..]| ==> !HasKey(ms[1..][j], key);
        assert HasKey(ms[k + 1], key);
        if LastValue(ms, key) == Some(v) {
          assert forall j :: k + 1 < j < |ms| ==> !HasKey(ms[j], key);
        }
        if exists i :: 0 <= i < |ms| && HasKey(ms[i], key) && ms[i].value == v &&
             forall j :: i < j < |ms| ==> !HasKey(ms[j], key) {
          var i :| 0 <= i < |ms| && HasKey(ms[i], key) && ms[i].value == v &&
             forall j :: i < j < |ms| ==> !HasKey(ms[j], key);
          assert i == k + 1;
        }
      } else if LastValue(ms, key) == Some(v) {
        assert forall j :: 0 < j < |ms| ==> !HasKey(ms[j], key);
      }
    }
  }

  /** Members with different keys can trade places without changing which
      value any key ends up with: the descriptor sub-fields do not depend on
      the order in which they are written. */
  lemma {:induction false} LastValueSwap(a: seq<ObjMember>, x: ObjMember, y: ObjMember, b: seq<ObjMember>, key: string)
    requires !(HasKey(x, key) && HasKey(y, key))
    ensures LastValue(a + [x, y] + b, key) == LastValue(a + [y, x] + b, key)
  {
    if a == [] {
      assert [x, y] + b == [x] + ([y] + b);
      assert [y, x] + b == [y] + ([x] + b);
      assert ([x, y] + b)[1..] == [y] + b;
      assert ([y, x] + b)[1..] == [x] + b;
      assert ([y] + b)[1..] == b;
      assert ([x] + b)[1..] == b;
      assert a + [x, y] + b == [x, y] + b;
      assert a + [y, x] + b == [y, x] + b;
    } else {
      LastValueSwap(a[1..], x, y, b, key);
      assert (a + [x, y] + b)[0] == a[0];
      assert (a + [y, x] + b)[0] == a[0];
      assert (a + [x, y] + b)[1..] == a[1..] + [x, y] + b;
      assert (a + [y, x] + b)[1..] == a[1..] + [y, x] + b;
    }
  }
}
