/** The traversal both estraverse visitors in parse.js perform
    (parse.js:190-203 and parse.js:248-269): a depth-first pre-order walk
    whose `enter` callback first returns `VisitorOption.Skip` for the node
    kinds listed in `skips` (parse.js:5), so that such a node and everything
    below it are never examined. */
module Traversal {
  import opened Wrappers
  import opened JsAst

  /** `const skips = ['ExperimentalSpreadProperty']` */
  const Skips: seq<string> := ["ExperimentalSpreadProperty"]

  /** The elements of an array literal, holes left out. */
  function Present(es: seq<Option<Node>>): (r: seq<Node>)
    ensures forall c :: c in r ==> exists i :: 0 <= i < |es| && es[i] == Some(c)
  {
    if es == [] then []
    else (match es[0] case None => [] case Some(e) => [e]) + Present(es[1..])
  }

  predicate IsMemberChild(m: ObjMember, c: Node)
  {
    match m
    case Property(k, v) => c == k || c == v
    case ExperimentalSpreadProperty(a) => c == a
  }

  /** The children reached through the members of an object literal: a
      property's key then its value, and nothing from a member whose kind is
      skipped. */
  function MemberChildren(ms: seq<ObjMember>): (r: seq<Node>)
    ensures forall c :: c in r ==> exists i :: 0 <= i < |ms| && IsMemberChild(ms[i], c)
  {
    if ms == [] then []
    else
      (if MemberKind(ms[0]) in Skips then []
       else match ms[0]
         case Property(k, v) => [k, v]
         case ExperimentalSpreadProperty(a) => [a])
      + MemberChildren(ms[1..])
  }

  /** The ordered child list of a node, in estraverse's visiting order. */
  function Children(n: Node): (r: seq<Node>)
    ensures forall c :: c in r ==> (n decreases to c)
  {
    match n
    case Literal(_) => []
    case Identifier(_) => []
    case ArrayExpression(es) =>
      var r := Present(es);
      assert forall c :: c in r ==> (n decreases to c) by {
        forall c | c in r ensures n decreases to c {
          var i :| 0 <= i < |es| && es[i] == Some(c);
          assert es[i] in es;
        }
      }
      r
    case ObjectExpression(ms) =>
      var r := MemberChildren(ms);
      assert forall c :: c in r ==> (n decreases to c) by {
        forall c | c in r ensures n decreases to c {
          var i :| 0 <= i < |ms| && IsMemberChild(ms[i], c);
          assert ms[i] in ms;
        }
      }
      r
    case FunctionExpression(ps, body) => ps + [body]
    case CallExpression(callee, args) => [callee] + args
    case MemberExpression(o, p) => [o, p]
    case ExportDefaultDeclaration(d) => [d]
    case AssignmentExpression(l, r) => [l, r]
    case Other(_, cs) => cs
  }

  /** The nodes the visitor examines, in the order it examines them. */
  function PreOrder(n: Node): seq<Node>
    decreases n, |Children(n)| + 1
  {
    if Kind(n) in Skips then [] else [n] + PreOrderAll(n, Children(n))
  }

  /** `PreOrder` of each of `ns` in turn; `parent` only bounds the recursion. */
  function PreOrderAll(parent: Node, ns: seq<Node>): seq<Node>
    requires forall c :: c in ns ==> (parent decreases to c)
    decreases parent, |ns|
  {
    if ns == [] then []
    else
      assert ns[0] in ns;
      assert forall c :: c in ns[1..] ==> c in ns;
      PreOrder(ns[0]) + PreOrderAll(parent, ns[1..])
  }

  /** `c` lies in the tree below `n` without any skipped node on the way:
      an order-free reference for what the walk reaches. */
  ghost predicate Reaches(n: Node, c: Node)
    decreases n, |Children(n)| + 1
  {
    Kind(n) !in Skips && (c == n || ReachesAny(n, Children(n), c))
  }

  ghost predicate ReachesAny(parent: Node, ns: seq<Node>, c: Node)
    requires forall x :: x in ns ==> (parent decreases to x)
    decreases parent, |ns|
  {
    exists x :: x in ns && Reaches(x, c)
  }

  /** The walk examines exactly the nodes that can be reached without
      crossing a skipped node. */
  lemma {:induction false} PreOrderReaches(n: Node, c: Node)
    ensures c in PreOrder(n) <==> Reaches(n, c)
    decreases n, |Children(n)| + 1
  {
    if Kind(n) !in Skips {
      PreOrderAllReaches(n, Children(n), c);
    }
  }

  lemma {:induction false} PreOrderAllReaches(parent: Node, ns: seq<Node>, c: Node)
    requires forall x :: x in ns ==> (parent decreases to x)
    ensures c in PreOrderAll(parent, ns) <==> ReachesAny(parent, ns, c)
    decreases parent, |ns|
  {
    if ns != [] {
      assert ns[0] in ns;
      assert forall x :: x in ns[1..] ==> x in ns;
      PreOrderReaches(ns[0], c);
      PreOrderAllReaches(parent, ns[1..], c);
      if ReachesAny(parent, ns, c) && !Reaches(ns[0], c) {
        var x :| x in ns && Reaches(x, c);
        assert x in ns[1..];
      }
    }
  }

  /** No examined node is of a skipped kind. */
  lemma {:induction false} PreOrderNeverSkipped(n: Node)
    ensures forall c :: c in PreOrder(n) ==> Kind(c) !in Skips
    decreases n, |Children(n)| + 1
  {
    if Kind(n) !in Skips {
      PreOrderAllNeverSkipped(n, Children(n));
    }
  }

  lemma {:induction false} PreOrderAllNeverSkipped(parent: Node, ns: seq<Node>)
    requires forall x :: x in ns ==> (parent decreases to x)
    ensures forall c :: c in PreOrderAll(parent, ns) ==> Kind(c) !in Skips
    decreases parent, |ns|
  {
    if ns != [] {
      assert ns[0] in ns;
      assert forall x :: x in ns[1..] ==> x in ns;
      PreOrderNeverSkipped(ns[0]);
      PreOrderAllNeverSkipped(parent, ns[1..]);
    }
  }

  /** The walk of a list does not depend on the node it hangs from. */
  lemma {:induction false} PreOrderAllParent(p: Node, q: Node, ns: seq<Node>)
    requires forall x :: x in ns ==> (p decreases to x)
    requires forall x :: x in ns ==> (q decreases to x)
    ensures PreOrderAll(p, ns) == PreOrderAll(q, ns)
    decreases |ns|
  {
    if ns != [] {
      assert forall x :: x in ns[1..] ==> x in ns;
      PreOrderAllParent(p, q, ns[1..]);
    }
  }

  lemma {:induction false} MemberChildrenAppend(a: seq<ObjMember>, b: seq<ObjMember>)
    ensures MemberChildren(a + b) == MemberChildren(a) + MemberChildren(b)
  {
    if a == [] {
      assert a + b == b;
    } else {
      assert (a + b)[0] == a[0];
      assert (a + b)[1..] == a[1..] + b;
      MemberChildrenAppend(a[1..], b);
    }
  }

  /** A spread member of an object literal is pruned: whatever its argument
      holds, the walk below the object is the one of the object without it. */
  lemma SpreadIsPruned(a: seq<ObjMember>, x: Node, b: seq<ObjMember>)
    ensures PreOrder(ObjectExpression(a + [ExperimentalSpreadProperty(x)] + b))[1..] ==
            PreOrder(ObjectExpression(a + b))[1..]
  {
    var spread := [ExperimentalSpreadProperty(x)];
    var with := ObjectExpression(a + spread + b);
    var without := ObjectExpression(a + b);
    MemberChildrenAppend(a + spread, b);
    MemberChildrenAppend(a, spread);
    assert spread[1..] == [];
    assert MemberChildren(spread) == [];
    MemberChildrenAppend(a, b);
    var cs := MemberChildren(a + b);
    assert Children(with) == cs;
    assert Children(without) == cs;
    assert PreOrder(with) == [with] + PreOrderAll(with, cs);
    assert PreOrder(without) == [without] + PreOrderAll(without, cs);
    PreOrderAllParent(with, without, cs);
  }
}
