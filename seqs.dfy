/** Sequence combinators shared by the extractors: the `Array.prototype`
    operations parse.js relies on (`filter`/`map` shapes, `join`) and the
    fallible flat-map that models a `forEach` loop which pushes zero or one
    record per item and may throw part-way through. */
module Seqs {
  import opened Wrappers

  /** The items of `s` that satisfy `p`, in their original order. */
  function Filter<T>(p: T -> bool, s: seq<T>): (r: seq<T>)
    ensures |r| <= |s|
  {
    if s == [] then []
    else if p(s[0]) then [s[0]] + Filter(p, s[1..])
    else Filter(p, s[1..])
  }

  /** `s.map(f)`. */
  function Map<T, U>(f: T -> U, s: seq<T>): (r: seq<U>)
    ensures |r| == |s|
  {
    if s == [] then [] else [f(s[0])] + Map(f, s[1..])
  }

  lemma {:induction false} MapAt<T, U>(f: T -> U, s: seq<T>, i: int)
    requires 0 <= i < |s|
    ensures Map(f, s)[i] == f(s[i])
  {
    if i > 0 {
      MapAt(f, s[1..], i - 1);
    }
  }

  /** `Filter` keeps exactly the items of `s` that satisfy `p`. */
  lemma {:induction false} FilterKeeps<T>(p: T -> bool, s: seq<T>, x: T)
    ensures x in Filter(p, s) <==> x in s && p(x)
  {
    if s != [] {
      FilterKeeps(p, s[1..], x);
      assert s == [s[0]] + s[1..];
    }
  }

  /** `Filter` keeps nothing of a sequence none of whose items pass. */
  lemma {:induction false} FilterNone<T>(p: T -> bool, s: seq<T>)
    requires forall x :: x in s ==> !p(x)
    ensures Filter(p, s) == []
  {
    if s != [] {
      assert s[0] in s;
      assert forall x :: x in s[1..] ==> x in s;
      FilterNone(p, s[1..]);
    }
  }

  function Id<T>(x: T): T { x }

  lemma {:induction false} MapId<T>(s: seq<T>)
    ensures Map(Id, s) == s
  {
    if s != [] {
      MapId(s[1..]);
      assert s == [s[0]] + s[1..];
    }
  }

  /** `parts.join(sep)`: the parts with `sep` between neighbours. */
  function Join(parts: seq<string>, sep: string): string
  {
    if |parts| == 0 then ""
    else if |parts| == 1 then parts[0]
    else parts[0] + sep + Join(parts[1..], sep)
  }

  /** Puts `acc` in front of a successful result; passes a failure through. */
  function Prepend<R, E>(acc: seq<R>, r: Result<seq<R>, E>): Result<seq<R>, E>
  {
    match r
    case Ok(x) => Ok(acc + x)
    case Err(e) => Err(e)
  }

  lemma PrependNil<R, E>(r: Result<seq<R>, E>)
    ensures Prepend([], r) == r
  {
    if r.Ok? {
      assert [] + r.value == r.value;
    }
  }

  lemma PrependPrepend<R, E>(a: seq<R>, b: seq<R>, r: Result<seq<R>, E>)
    ensures Prepend(a, Prepend(b, r)) == Prepend(a + b, r)
  {
    if r.Ok? {
      assert a + (b + r.value) == (a + b) + r.value;
    }
  }

  lemma PrependDone<R, E>(acc: seq<R>, r: Result<seq<R>, E>)
    requires r == Ok([])
    ensures Prepend(acc, r) == Ok(acc)
  {
    assert acc + [] == acc;
  }

  /** A loop over `s` that appends the records `f` gives for each item and
      stops at the first item for which `f` fails. */
  function TryFlatMap<T, R, E>(f: T -> Result<seq<R>, E>, s: seq<T>): Result<seq<R>, E>
  {
    if s == [] then Ok([])
    else match f(s[0])
      case Err(e) => Err(e)
      case Ok(x) => Prepend(x, TryFlatMap(f, s[1..]))
  }

  /** One unfolding of `TryFlatMap` on the suffix that starts at `i`. */
  lemma TryFlatMapAt<T, R, E>(f: T -> Result<seq<R>, E>, s: seq<T>, i: int)
    requires 0 <= i < |s|
    ensures TryFlatMap(f, s[i..]) ==
      match f(s[i])
      case Err(e) => Err(e)
      case Ok(x) => Prepend(x, TryFlatMap(f, s[i + 1..]))
  {
    assert s[i..][0] == s[i];
    assert s[i..][1..] == s[i + 1..];
  }

  lemma {:induction false} MapAppend<T, U>(f: T -> U, a: seq<T>, b: seq<T>)
    ensures Map(f, a + b) == Map(f, a) + Map(f, b)
  {
    if a == [] {
      assert a + b == b;
    } else {
      assert (a + b)[0] == a[0];
      assert (a + b)[1..] == a[1..] + b;
      MapAppend(f, a[1..], b);
    }
  }

  lemma {:induction false} FilterAppend<T>(p: T -> bool, a: seq<T>, b: seq<T>)
    ensures Filter(p, a + b) == Filter(p, a) + Filter(p, b)
  {
    if a == [] {
      assert a + b == b;
    } else {
      assert (a + b)[0] == a[0];
      assert (a + b)[1..] == a[1..] + b;
      FilterAppend(p, a[1..], b);
    }
  }

  /** One unfolding of `Map(g, Filter(p, ·))` on the suffix that starts at `i`. */
  lemma FilterMapAt<T, U>(g: T -> U, p: T -> bool, s: seq<T>, i: int)
    requires 0 <= i < |s|
    ensures Map(g, Filter(p, s[i..])) ==
      (if p(s[i]) then [g(s[i])] else []) + Map(g, Filter(p, s[i + 1..]))
  {
    assert s[i..][0] == s[i];
    assert s[i..][1..] == s[i + 1..];
    MapAppend(g, if p(s[i]) then [s[i]] else [], Filter(p, s[i + 1..]));
  }

  /** When every item yields one record `g(x)` if `p(x)` holds and none
      otherwise, the fallible loop succeeds exactly when no item fails, and
      then yields `Map(g, Filter(p, s))`: one record per accepted item, in
      order. */
  lemma {:induction false} TryFlatMapFilterMap<T, R, E>(
    f: T -> Result<seq<R>, E>, p: T -> bool, g: T -> R, s: seq<T>)
    requires forall x :: f(x).Ok? ==> f(x).value == (if p(x) then [g(x)] else [])
    ensures TryFlatMap(f, s).Ok? <==> forall i :: 0 <= i < |s| ==> f(s[i]).Ok?
    ensures TryFlatMap(f, s).Ok? ==> TryFlatMap(f, s).value == Map(g, Filter(p, s))
  {
    if s != [] {
      TryFlatMapFilterMap(f, p, g, s[1..]);
      assert forall i :: 1 <= i < |s| ==> s[i] == s[1..][i - 1];
      if f(s[0]).Ok? {
        MapAppend(g, if p(s[0]) then [s[0]] else [], Filter(p, s[1..]));
        if !TryFlatMap(f, s[1..]).Ok? {
          var k :| 0 <= k < |s[1..]| && !f(s[1..][k]).Ok?;
          assert s[1..][k] == s[k + 1];
        }
      }
    }
  }

  /** A failing loop reports the failure of its first failing item. */
  lemma {:induction false} TryFlatMapFirstError<T, R, E>(f: T -> Result<seq<R>, E>, s: seq<T>, e: E)
    ensures TryFlatMap(f, s) == Err(e) <==>
      exists i :: 0 <= i < |s| && f(s[i]) == Err(e) && forall j :: 0 <= j < i ==> f(s[j]).Ok?
  {
    if s != [] {
      TryFlatMapFirstError(f, s[1..], e);
      if f(s[0]).Ok? {
        if TryFlatMap(f, s) == Err(e) {
          var k :| 0 <= k < |s[1..]| && f(s[1..][k]) == Err(e) && forall j :: 0 <= j < k ==> f(s[1..][j]).Ok?;
          assert s[1..][k] == s[k + 1];
          assert forall j :: 1 <= j < k + 1 ==> s[j] == s[1..][j - 1];
        }
        if exists i :: 0 <= i < |s| && f(s[i]) == Err(e) && forall j :: 0 <= j < i ==> f(s[j]).Ok? {
          var i :| 0 <= i < |s| && f(s[i]) == Err(e) && forall j :: 0 <= j < i ==> f(s[j]).Ok?;
          assert i > 0;
          assert s[1..][i - 1] == s[i];
          assert forall j :: 0 <= j < i - 1 ==> s[1..][j] == s[j + 1];
        }
      } else {
        if exists i :: 0 <= i < |s| && f(s[i]) == Err(e) && forall j :: 0 <= j < i ==> f(s[j]).Ok? {
          var i :| 0 <= i < |s| && f(s[i]) == Err(e) && forall j :: 0 <= j < i ==> f(s[j]).Ok?;
          assert i == 0;
        }
      }
    }
  }
}
