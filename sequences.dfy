/**
 * Reference definitions over sequences that the list-building loops of
 * lambdaj are proved against. Each is written the way those loops build
 * their result: by appending at the end.
 */
module Sequences {

  /** The matcher `not(p)`. */
  function Not<T>(p: T -> bool): T -> bool
  {
    x => !p(x)
  }

  /** The items of `s` that satisfy `p`, in their original order. */
  function Filter<T>(s: seq<T>, p: T -> bool): (r: seq<T>)
    ensures |r| <= |s|
    decreases |s|
  {
    if s == [] then []
    else
      var front := Filter(s[..|s| - 1], p);
      if p(s[|s| - 1]) then front + [s[|s| - 1]] else front
  }

  /**
   * `Filter(s, p)` holds the items of `s` that satisfy `p`, each as often as
   * in `s`, and nothing else.
   */
  lemma {:induction false} FilterContents<T>(s: seq<T>, p: T -> bool)
    ensures forall x :: x in Filter(s, p) ==> x in s && p(x)
    ensures forall x :: x in s && p(x) ==> x in Filter(s, p)
    ensures forall x :: x in s ==> multiset(Filter(s, p))[x] == if p(x) then multiset(s)[x] else 0
    decreases |s|
  {
    if s != [] {
      var last := s[|s| - 1];
      assert s == s[..|s| - 1] + [last];
      FilterContents(s[..|s| - 1], p);
    }
  }

  /**
   * A matcher and its negation split a sequence: every item lands in exactly
   * one of `Filter(s, p)` and `Filter(s, Not(p))`.
   */
  lemma {:induction false} FilterPartition<T>(s: seq<T>, p: T -> bool)
    ensures multiset(Filter(s, p)) + multiset(Filter(s, Not(p))) == multiset(s)
    ensures forall x :: !(x in Filter(s, p) && x in Filter(s, Not(p)))
    decreases |s|
  {
    if s != [] {
      var last := s[|s| - 1];
      assert s == s[..|s| - 1] + [last];
      FilterPartition(s[..|s| - 1], p);
      FilterContents(s, p);
      FilterContents(s, Not(p));
    }
  }

  /** Filtering a list extended by one item filters the list and then that item. */
  lemma FilterSnoc<T>(s: seq<T>, x: T, p: T -> bool)
    ensures Filter(s + [x], p) == if p(x) then Filter(s, p) + [x] else Filter(s, p)
  {
    assert (s + [x])[..|s + [x]| - 1] == s;
  }

  /** Filtering a list that starts with `x` filters `x`, then the rest. */
  lemma {:induction false} FilterCons<T>(x: T, t: seq<T>, p: T -> bool)
    ensures Filter([x] + t, p) == (if p(x) then [x] else []) + Filter(t, p)
    decreases |t|
  {
    if t != [] {
      var front, last := t[..|t| - 1], t[|t| - 1];
      assert t == front + [last];
      assert [x] + t == ([x] + front) + [last];
      FilterSnoc([x] + front, last, p);
      FilterSnoc(front, last, p);
      FilterCons(x, front, p);
    }
  }

  /** `f` applied to every item of `s`, in order. */
  function Mapped<F, T>(s: seq<F>, f: F -> T): (r: seq<T>)
    ensures |r| == |s|
    ensures forall i :: 0 <= i < |s| ==> r[i] == f(s[i])
    decreases |s|
  {
    if s == [] then [] else Mapped(s[..|s| - 1], f) + [f(s[|s| - 1])]
  }
}
