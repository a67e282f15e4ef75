/**
 * LambdaIterable: a fluent wrapper around an Iterable whose operations hand
 * the wrapped items to the Lambda helpers, or loop over them directly.
 */
module LambdaIterable {
  import opened JavaLang
  import opened Sequences
  import Lambda

  /** The wrapped Iterable seen through a parameter declared `Object`. */
  function AsObject<T>(inner: Ref<seq<T>>): (o: Ref<Instance<T>>)
    ensures inner.Null? <==> o.Null?
    ensures inner.Obj? ==> IsIterable(o) && o.value.items == inner.value
  {
    match inner
    case Null => Null
    case Obj(items) => Obj(IterableOf(items))
  }

  /** `matcher.matches(item) ? replacer : item` for every item. */
  function Replaced<T>(s: seq<T>, matcher: T -> bool, replacer: T): (r: seq<T>)
    ensures |r| == |s|
    ensures forall i :: 0 <= i < |s| ==> r[i] == if matcher(s[i]) then replacer else s[i]
  {
    Mapped(s, x => if matcher(x) then replacer else x)
  }

  class LambdaIterable<T(==)> {
    /** `innerIterable`, the wrapped items in iteration order. */
    const inner: Ref<seq<T>>

    constructor (inner: Ref<seq<T>>)
      ensures this.inner == inner
    {
      this.inner := inner;
    }

    /** `doFilter(matcher)`: `select(innerIterable, matcher)`. */
    method DoFilter(matcher: T -> bool) returns (r: seq<T>)
      ensures inner.Null? ==> r == []
      ensures inner.Obj? ==> r == Filter(inner.value, matcher)
    {
      r := Lambda.Select(inner, matcher);
    }

    /**
     * `doRemove(matcher)`: `select(innerIterable, not(matcher))`. With
     * `DoFilter` it splits the items: see `Sequences.FilterPartition`.
     */
    method DoRemove(matcher: T -> bool) returns (r: seq<T>)
      ensures inner.Null? ==> r == []
      ensures inner.Obj? ==> r == Filter(inner.value, Not(matcher))
    {
      r := Lambda.Select(inner, Not(matcher));
    }

    /** `doSort(argument)`: `sort(innerIterable, argument)`. */
    method DoSort<K(!new)>(argument: T -> K, compare: (K, K) -> int) returns (r: Result<seq<T>>)
      requires Lambda.Total(compare)
      ensures inner.Null? ==> r == Threw(NullPointer)
      ensures inner.Obj? ==> r.Ok? && multiset(r.value) == multiset(inner.value)
      ensures inner.Obj? ==> r.Ok? && Lambda.SortedOn(r.value, argument, compare)
    {
      r := Lambda.Sort(AsObject(inner), argument, compare);
    }

    /** `doConvert(converter)`: `convert(innerIterable, converter)`. */
    method DoConvert<V>(converter: T -> V) returns (r: seq<V>)
      ensures inner.Null? ==> r == []
      ensures inner.Obj? ==> |r| == |inner.value|
      ensures inner.Obj? ==> forall i :: 0 <= i < |r| ==> r[i] == converter(inner.value[i])
    {
      var converted := Lambda.Convert(AsObject(inner), converter);
      r := converted.value;
    }

    /** `doExtract(argument)`: `extract(innerIterable, argument)`. */
    method DoExtract<V>(argument: T -> V) returns (r: seq<V>)
      ensures inner.Null? ==> r == []
      ensures inner.Obj? ==> |r| == |inner.value|
      ensures inner.Obj? ==> forall i :: 0 <= i < |r| ==> r[i] == argument(inner.value[i])
    {
      var extracted := Lambda.Extract(AsObject(inner), argument);
      r := extracted.value;
    }

    /**
     * `doReplace(matcher, replacer)`: builds the replaced list and then
     * returns null instead of it. Iterating a null Iterable throws.
     * `discarded` is the list that is built and thrown away.
     */
    method DoReplace(matcher: T -> bool, replacer: T) returns (r: Result<Ref<seq<T>>>, ghost discarded: seq<T>)
      ensures inner.Null? ==> r == Threw(NullPointer)
      ensures inner.Obj? ==> r == Ok(Null)
      ensures inner.Obj? ==> discarded == Replaced(inner.value, matcher, replacer)
    {
      discarded := [];
      if inner.Null? {
        return Threw(NullPointer), discarded;
      }
      var items := inner.value;
      var list: seq<T> := [];
      for i := 0 to |items|
        invariant list == Replaced(items[..i], matcher, replacer)
      {
        assert items[..i + 1][..i] == items[..i];
        list := list + [if matcher(items[i]) then replacer else items[i]];
      }
      assert items[..|items|] == items;
      discarded := list;
      r := Ok(Null);
    }

    /** `distinct()`: a HashSet of the items, exactly those and no other. */
    method Distinct() returns (r: Result<set<T>>)
      ensures inner.Null? ==> r == Threw(NullPointer)
      ensures inner.Obj? ==> r.Ok? && forall x :: x in r.value <==> x in inner.value
    {
      if inner.Null? {
        return Threw(NullPointer);
      }
      var items := inner.value;
      var found: set<T> := {};
      for i := 0 to |items|
        invariant forall x :: x in found <==> x in items[..i]
      {
        assert items[..i + 1] == items[..i] + [items[i]];
        found := found + {items[i]};
      }
      assert items[..|items|] == items;
      r := Ok(found);
    }
  }
}
