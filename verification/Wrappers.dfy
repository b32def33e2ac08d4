/** Option and Result, the project's stand-ins for the optional values and typed errors of the source. */
module Wrappers {

  /** A machine's or a root's key, of which only its identity matters. */
  type Key = int

  datatype Option<+T> = None | Some(value: T)

  datatype Result<+T, +E> = Ok(value: T) | Err(error: E) {
    predicate IsFailure() { Err? }

    function PropagateFailure<U>(): Result<U, E>
      requires Err?
    {
      Err(error)
    }

    function Extract(): T
      requires Ok?
    {
      value
    }
  }

  /** Two sets meet exactly when they share an element. */
  lemma NoneShared<A>(s: set<A>, t: set<A>)
    ensures s * t == {} <==> forall x :: x in s ==> x !in t
  {
    if s * t != {} {
      var x :| x in s * t;
      assert x in s && x in t;
    }
    forall x | s * t == {} && x in s ensures x !in t { assert x in t ==> x in s * t; }
  }

  /** The elements of a sequence that meet a test, in order. */
  function Filter<A>(p: A -> bool, s: seq<A>): seq<A> {
    if s == [] then [] else (if p(s[0]) then [s[0]] else []) + Filter(p, s[1..])
  }

  lemma {:induction false} FilterAppend<A>(p: A -> bool, a: seq<A>, b: seq<A>)
    ensures Filter(p, a + b) == Filter(p, a) + Filter(p, b)
  {
    if a == [] {
      assert a + b == b;
    } else {
      assert (a + b)[1..] == a[1..] + b;
      FilterAppend(p, a[1..], b);
    }
  }

  /** The image of a sequence under a function. */
  function Map<A, B>(f: A -> B, s: seq<A>): (r: seq<B>)
    ensures |r| == |s|
    ensures forall i :: 0 <= i < |s| ==> r[i] == f(s[i])
  {
    seq(|s|, i requires 0 <= i < |s| => f(s[i]))
  }

  lemma MapAppend<A, B>(f: A -> B, s: seq<A>, t: seq<A>)
    ensures Map(f, s + t) == Map(f, s) + Map(f, t)
  {}

  /** Taking one element out of a sequence takes it out of the bag. */
  lemma WithoutBag<A>(s: seq<A>, k: nat)
    requires k < |s|
    ensures multiset(s) == multiset(s[..k] + s[k + 1..]) + multiset{s[k]}
  {
    assert s == s[..k] + [s[k]] + s[k + 1..];
  }

  lemma MapWithout<A, B>(f: A -> B, s: seq<A>, k: nat)
    requires k < |s|
    ensures multiset(Map(f, s)) == multiset(Map(f, s[..k] + s[k + 1..])) + multiset{f(s[k])}
  {
    var m := Map(f, s);
    WithoutBag(m, k);
    assert Map(f, s[..k] + s[k + 1..]) == m[..k] + m[k + 1..];
  }

  lemma SameSize<A>(s: seq<A>, t: seq<A>)
    requires multiset(s) == multiset(t)
    ensures |s| == |t|
  {
    assert |s| == |multiset(s)| == |multiset(t)| == |t|;
  }

  /** The first of one list found in the other, and both without it the same bag still. */
  lemma Matched<A>(s: seq<A>, t: seq<A>) returns (k: nat)
    requires multiset(s) == multiset(t) && s != []
    ensures k < |t| && t[k] == s[0] && multiset(s[..0] + s[1..]) == multiset(t[..k] + t[k + 1..])
  {
    assert s[0] in multiset(t);
    k :| 0 <= k < |t| && t[k] == s[0];
    WithoutBag(t, k);
    WithoutBag(s, 0);
    assert multiset(s[..0] + s[1..]) == multiset(s) - multiset{s[0]};
    assert multiset(t[..k] + t[k + 1..]) == multiset(t) - multiset{s[0]};
  }

  /** The bag of an image depends only on the bag of the argument. */
  lemma {:induction false} MapBag<A, B>(f: A -> B, s: seq<A>, t: seq<A>)
    requires multiset(s) == multiset(t)
    ensures multiset(Map(f, s)) == multiset(Map(f, t))
    decreases |s|
  {
    SameSize(s, t);
    if s != [] {
      var k := Matched(s, t);
      MapBag(f, s[..0] + s[1..], t[..k] + t[k + 1..]);
      MapWithout(f, s, 0);
      MapWithout(f, t, k);
    }
  }
}
