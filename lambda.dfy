/**
 * The collection helpers of lambdaj's `Lambda` class: flattening, selection,
 * sorting, aggregation, conversion and indexing over Java iterables.
 *
 * A recorded `on(X.class).getY()` argument is an abstract function from an
 * item to the extracted value, a hamcrest Matcher a predicate, a Converter a
 * function, and an Aggregator a starting value with a binary operation.
 */
module Lambda {
  import opened JavaLang
  import opened Sequences
  import StringConverter

  // ---------------------------------------------------------------------
  // collect
  // ---------------------------------------------------------------------

  /**
   * A Java value as `collect` inspects it: null, an element that is neither
   * an Iterable nor a Map, an Iterable (its items in iteration order) or a
   * Map (its `values()` in iteration order).
   */
  datatype Value<A> =
    | NullValue
    | Leaf(a: A)
    | ListOf(items: seq<Value<A>>)
    | MapOf(values: seq<Value<A>>)

  /** What `collect` adds to its result unchanged. */
  predicate IsElement<A>(v: Value<A>)
  {
    v.NullValue? || v.Leaf?
  }

  /** The items of nested Iterables and Map values, depth first, in order. */
  function Flattened<A>(items: seq<Value<A>>): (r: seq<Value<A>>)
    ensures forall v :: v in r ==> IsElement(v)
    decreases items
  {
    if items == [] then [] else Expanded(items[0]) + Flattened(items[1..])
  }

  /** What one item of an Iterable contributes to the flattened list. */
  function Expanded<A>(v: Value<A>): (r: seq<Value<A>>)
    ensures forall w :: w in r ==> IsElement(w)
    decreases v
  {
    match v
    case ListOf(xs) => Flattened(xs)
    case MapOf(vs) => Flattened(vs)
    case _ => [v]
  }

  /** A size that shrinks on every recursive call of `Collect`. */
  function Size<A>(v: Value<A>): nat
    decreases v
  {
    match v
    case ListOf(xs) => 1 + SizeAll(xs)
    case MapOf(vs) => 2 + SizeAll(vs)
    case _ => 1
  }

  function SizeAll<A>(vs: seq<Value<A>>): nat
    decreases vs
  {
    if vs == [] then 0 else Size(vs[0]) + SizeAll(vs[1..])
  }

  lemma {:induction false} SizeOfItem<A>(vs: seq<Value<A>>, i: nat)
    requires i < |vs|
    ensures Size(vs[i]) <= SizeAll(vs)
    decreases i
  {
    if i > 0 {
      SizeOfItem(vs[1..], i - 1);
    }
  }

  lemma {:induction false} FlattenedAppend<A>(a: seq<Value<A>>, b: seq<Value<A>>)
    ensures Flattened(a + b) == Flattened(a) + Flattened(b)
    decreases |a|
  {
    if a == [] {
      assert a + b == b;
    } else {
      assert (a + b)[0] == a[0];
      assert (a + b)[1..] == a[1..] + b;
      FlattenedAppend(a[1..], b);
    }
  }

  /** A list that holds only elements flattens to itself. */
  lemma {:induction false} FlattenedOfElements<A>(items: seq<Value<A>>)
    requires forall v :: v in items ==> IsElement(v)
    ensures Flattened(items) == items
    decreases |items|
  {
    if items != [] {
      assert items[0] in items;
      assert forall v :: v in items[1..] ==> v in items;
      FlattenedOfElements(items[1..]);
    }
  }

  /** The outcome of `collect(Object)` as the code is written. */
  function CollectAsWritten<A>(o: Value<A>): Result<seq<Value<A>>>
  {
    match o
    case ListOf(items) => Ok(Flattened(items))
    case MapOf(_) => Threw(ClassCast)
    case _ => Threw(IllegalArgument)
  }

  /**
   * `collect(Object)`: anything but an Iterable or a Map is rejected; a Map
   * passes that test but then fails the cast to Iterable of the for-each;
   * an Iterable is flattened, nested Iterables recursively and nested Maps
   * through their values.
   */
  method Collect<A>(o: Value<A>) returns (r: Result<seq<Value<A>>>)
    ensures r == CollectAsWritten(o)
    ensures r.Ok? ==> forall v :: v in r.value ==> IsElement(v)
    decreases Size(o)
  {
    if !(o.ListOf? || o.MapOf?) {
      return Threw(IllegalArgument);
    }
    if o.MapOf? {
      return Threw(ClassCast);
    }
    var collected: seq<Value<A>> := [];
    for i := 0 to |o.items|
      invariant collected == Flattened(o.items[..i])
    {
      var item := o.items[i];
      SizeOfItem(o.items, i);
      FlattenedAppend(o.items[..i], [item]);
      assert o.items[..i + 1] == o.items[..i] + [item];
      if item.ListOf? {
        var sub := Collect(item);
        collected := collected + sub.value;
      } else if item.MapOf? {
        var sub := Collect(ListOf(item.values));
        collected := collected + sub.value;
      } else {
        collected := collected + [item];
      }
    }
    assert o.items[..|o.items|] == o.items;
    return Ok(collected);
  }

  /** Collecting keeps the order of the top-level items. */
  lemma CollectKeepsOrder<A>(a: seq<Value<A>>, b: seq<Value<A>>)
    ensures CollectAsWritten(ListOf(a + b)) == Ok(Flattened(a) + Flattened(b))
  {
    FlattenedAppend(a, b);
  }

  /** Collecting what was collected changes nothing. */
  lemma CollectIsIdempotent<A>(o: Value<A>)
    requires CollectAsWritten(o).Ok?
    ensures CollectAsWritten(ListOf(CollectAsWritten(o).value)) == CollectAsWritten(o)
  {
    FlattenedOfElements(CollectAsWritten(o).value);
  }

  /**
   * The top-level Map case as written: `collect` of a Map throws, while the
   * same Map one level down is flattened through its values.
   */
  lemma CollectRejectsTopLevelMap<A>(vs: seq<Value<A>>)
    ensures CollectAsWritten(MapOf(vs)) == Threw(ClassCast)
    ensures CollectAsWritten(ListOf([MapOf(vs)])) == Ok(Flattened(vs))
  {
    var one := [MapOf(vs)];
    assert one[0] == MapOf(vs) && one[1..] == [];
    ExpandedSingle(MapOf(vs));
  }

  /** A one-item list flattens to what its item expands to. */
  lemma ExpandedSingle<A>(v: Value<A>)
    ensures Flattened([v]) == Expanded(v)
  {
    var one := [v];
    assert one[1..] == [];
    assert Flattened(one[1..]) == [];
  }

  /** `collect(Object)` as its documentation describes it: Maps count as Iterables of their values. */
  function CollectIntended<A>(o: Value<A>): (r: Result<seq<Value<A>>>)
    ensures r.Ok? ==> forall v :: v in r.value ==> IsElement(v)
  {
    match o
    case ListOf(items) => Ok(Flattened(items))
    case MapOf(values) => Ok(Flattened(values))
    case _ => Threw(IllegalArgument)
  }

  /**
   * The corrected `collect` treats a Map like the list of its values, at the
   * top level as one level down, and agrees with the code on everything else.
   */
  lemma CollectIntendedTreatsMapsAsIterables<A>(o: Value<A>)
    ensures o.MapOf? ==> CollectIntended(o) == CollectIntended(ListOf(o.values))
    ensures o.MapOf? ==> CollectIntended(ListOf([o])) == CollectIntended(o)
    ensures !o.MapOf? ==> CollectIntended(o) == CollectAsWritten(o)
  {
    if o.MapOf? {
      CollectRejectsTopLevelMap(o.values);
    }
  }

  /** `collect(iterable, argument)`: the argument of every item, flattened. */
  method CollectOn<T, A>(o: Ref<Instance<T>>, argument: T -> Value<A>) returns (r: Result<seq<Value<A>>>)
    ensures o.Null? ==> r == Ok([])
    ensures IsPlain(o) ==> r == Threw(ClassCast)
    ensures IsIterable(o) ==> r == Ok(Flattened(Mapped(o.value.items, argument)))
  {
    var converted := Convert(o, argument);
    if converted.Threw? {
      return Threw(converted.error);
    }
    r := Collect(ListOf(converted.value));
  }

  // ---------------------------------------------------------------------
  // sort
  // ---------------------------------------------------------------------

  /** The Comparator contract's totality: every pair is ordered one way or the other. */
  ghost predicate Total<K(!new)>(compare: (K, K) -> int)
  {
    forall a, b :: compare(a, b) <= 0 || compare(b, a) <= 0
  }

  /** Neighbours are in order when compared on their extracted values. */
  predicate SortedOn<T, K>(s: seq<T>, argument: T -> K, compare: (K, K) -> int)
  {
    forall i :: 0 < i < |s| ==> compare(argument(s[i - 1]), argument(s[i])) <= 0
  }

  /** `x` placed after every item of the sorted `s` that is not greater than it. */
  function InsertSorted<T, K(!new)>(s: seq<T>, x: T, argument: T -> K, compare: (K, K) -> int): (r: seq<T>)
    requires Total(compare)
    requires SortedOn(s, argument, compare)
    ensures SortedOn(r, argument, compare)
    ensures multiset(r) == multiset(s) + multiset{x}
    ensures |r| == |s| + 1
    ensures r[|r| - 1] == x || (s != [] && r[|r| - 1] == s[|s| - 1])
    decreases |s|
  {
    if s == [] then [x]
    else if compare(argument(s[|s| - 1]), argument(x)) <= 0 then s + [x]
    else
      var front := s[..|s| - 1];
      assert s == front + [s[|s| - 1]];
      InsertSorted(front, x, argument, compare) + [s[|s| - 1]]
  }

  /** The ordering `Collections.sort` produces, computed by insertion. */
  function InsertionSorted<T, K(!new)>(s: seq<T>, argument: T -> K, compare: (K, K) -> int): (r: seq<T>)
    requires Total(compare)
    ensures SortedOn(r, argument, compare)
    ensures multiset(r) == multiset(s)
    decreases |s|
  {
    if s == [] then []
    else
      assert s == s[..|s| - 1] + [s[|s| - 1]];
      InsertSorted(InsertionSorted(s[..|s| - 1], argument, compare), s[|s| - 1], argument, compare)
  }

  /**
   * `sort(iterable, argument, comparator)`: the items copied into a list and
   * sorted on their argument values. `compare` is the given comparator, or
   * the natural order when none is given; a null iterable is dereferenced.
   */
  method Sort<T, K(!new)>(o: Ref<Instance<T>>, argument: T -> K, compare: (K, K) -> int) returns (r: Result<seq<T>>)
    requires Total(compare)
    ensures o.Null? ==> r == Threw(NullPointer)
    ensures IsPlain(o) ==> r == Threw(ClassCast)
    ensures IsIterable(o) ==> r.Ok? && multiset(r.value) == multiset(o.value.items)
    ensures IsIterable(o) ==> r.Ok? && SortedOn(r.value, argument, compare)
  {
    if o.Null? {
      return Threw(NullPointer);
    }
    if o.value.Plain? {
      return Threw(ClassCast);
    }
    var items := o.value.items;
    var sorted: seq<T> := [];
    for i := 0 to |items|
      invariant sorted == items[..i]
    {
      sorted := sorted + [items[i]];
    }
    assert items[..|items|] == items;
    sorted := InsertionSorted(sorted, argument, compare);
    return Ok(sorted);
  }

  // ---------------------------------------------------------------------
  // select, selectFirst, selectUnique, selectDistinct
  // ---------------------------------------------------------------------

  /** `select(iterable, matcher)`: the matching items in order; nothing for null. */
  method Select<T>(iterable: Ref<seq<T>>, matcher: T -> bool) returns (r: seq<T>)
    ensures iterable.Null? ==> r == []
    ensures iterable.Obj? ==> r == Filter(iterable.value, matcher)
  {
    r := [];
    if iterable.Null? {
      return;
    }
    var items := iterable.value;
    for i := 0 to |items|
      invariant r == Filter(items[..i], matcher)
    {
      assert items[..i + 1][..i] == items[..i];
      if matcher(items[i]) {
        r := r + [items[i]];
      }
    }
    assert items[..|items|] == items;
  }

  /** `select(Object, matcher)`: the cast to Iterable, then `select`. */
  method SelectObject<T>(o: Ref<Instance<T>>, matcher: T -> bool) returns (r: Result<seq<T>>)
    ensures o.Null? ==> r == Ok([])
    ensures IsPlain(o) ==> r == Threw(ClassCast)
    ensures IsIterable(o) ==> r == Ok(Filter(o.value.items, matcher))
  {
    var iterable := AsIterable(o);
    if iterable.Threw? {
      return Threw(iterable.error);
    }
    var selected := Select(iterable.value, matcher);
    return Ok(selected);
  }

  /** The first item of `s` that matches is at index `i`. */
  ghost predicate FirstMatchAt<T>(s: seq<T>, matcher: T -> bool, i: int)
  {
    0 <= i < |s| && matcher(s[i]) && forall j :: 0 <= j < i ==> !matcher(s[j])
  }

  /** `selectFirst`: the earliest matching item, or null when none matches. */
  method SelectFirst<U>(iterable: Ref<seq<Ref<U>>>, matcher: Ref<U> -> bool) returns (r: Ref<U>)
    ensures iterable.Null? ==> r == Null
    ensures iterable.Obj? && (forall j :: 0 <= j < |iterable.value| ==> !matcher(iterable.value[j])) ==> r == Null
    ensures iterable.Obj? ==> forall i :: FirstMatchAt(iterable.value, matcher, i) ==> r == iterable.value[i]
  {
    if iterable.Null? {
      return Null;
    }
    var s := iterable.value;
    for i := 0 to |s|
      invariant forall j :: 0 <= j < i ==> !matcher(s[j])
    {
      if matcher(s[i]) {
        return s[i];
      }
    }
    return Null;
  }

  /** `selectFirst(Object, matcher)`: the cast to Iterable, then `selectFirst`. */
  method SelectFirstObject<U>(o: Ref<Instance<Ref<U>>>, matcher: Ref<U> -> bool) returns (r: Result<Ref<U>>)
    ensures o.Null? ==> r == Ok(Null)
    ensures IsPlain(o) ==> r == Threw(ClassCast)
    ensures IsIterable(o) && (forall j :: 0 <= j < |o.value.items| ==> !matcher(o.value.items[j])) ==> r == Ok(Null)
    ensures IsIterable(o) ==> forall i :: FirstMatchAt(o.value.items, matcher, i) ==> r == Ok(o.value.items[i])
  {
    var iterable := AsIterable(o);
    if iterable.Threw? {
      return Threw(iterable.error);
    }
    var first := SelectFirst(iterable.value, matcher);
    return Ok(first);
  }

  /** Some item of `s` matches. */
  predicate AnyMatch<T>(s: seq<T>, matcher: T -> bool)
  {
    exists i :: 0 <= i < |s| && matcher(s[i])
  }

  /**
   * The outcome of `selectUnique` as written: the first loop stops at the
   * first matching item that is not null; any later match, null or not,
   * raises the "Not unique item" error.
   */
  function SelectUniqueAsWritten<U>(s: seq<Ref<U>>, matcher: Ref<U> -> bool): Result<Ref<U>>
    decreases |s|
  {
    if s == [] then Ok(Null)
    else if matcher(s[0]) && s[0].Obj? then
      if AnyMatch(s[1..], matcher) then Threw(NotUniqueItem) else Ok(s[0])
    else SelectUniqueAsWritten(s[1..], matcher)
  }

  /** `selectUnique(iterable, matcher)`, with its two iterator loops. */
  method SelectUnique<U>(iterable: Ref<seq<Ref<U>>>, matcher: Ref<U> -> bool) returns (r: Result<Ref<U>>)
    ensures iterable.Null? ==> r == Ok(Null)
    ensures iterable.Obj? ==> r == SelectUniqueAsWritten(iterable.value, matcher)
  {
    var unique: Ref<U> := Null;
    if iterable.Null? {
      return Ok(unique);
    }
    var s := iterable.value;
    var i := 0;
    while i < |s| && unique.Null?
      invariant 0 <= i <= |s|
      invariant unique.Null? ==> SelectUniqueAsWritten(s, matcher) == SelectUniqueAsWritten(s[i..], matcher)
      invariant unique.Obj? ==>
        SelectUniqueAsWritten(s, matcher) == if AnyMatch(s[i..], matcher) then Threw(NotUniqueItem) else Ok(unique)
    {
      var item := s[i];
      assert s[i..][1..] == s[i + 1..];
      i := i + 1;
      if matcher(item) {
        unique := item;
      }
    }
    while i < |s|
      invariant 0 <= i <= |s|
      invariant SelectUniqueAsWritten(s, matcher) == if AnyMatch(s[i..], matcher) then Threw(NotUniqueItem) else Ok(unique)
    {
      if matcher(s[i]) {
        assert s[i..][0] == s[i];
        return Threw(NotUniqueItem);
      }
      assert forall j :: 0 < j < |s[i..]| ==> s[i..][j] == s[i + 1..][j - 1];
      i := i + 1;
    }
    return Ok(unique);
  }

  /**
   * `selectUnique(Object, matcher)`: the cast to Iterable, then
   * `selectUnique`, whose error passes through.
   */
  method SelectUniqueObject<U>(o: Ref<Instance<Ref<U>>>, matcher: Ref<U> -> bool) returns (r: Result<Ref<U>>)
    ensures o.Null? ==> r == Ok(Null)
    ensures IsPlain(o) ==> r == Threw(ClassCast)
    ensures IsIterable(o) ==> r == SelectUniqueAsWritten(o.value.items, matcher)
  {
    var iterable := AsIterable(o);
    if iterable.Threw? {
      return Threw(iterable.error);
    }
    r := SelectUnique(iterable.value, matcher);
  }

  /**
   * What `selectUnique` promises when no null item matches: null when nothing
   * matches, the match when exactly one item matches, the error when two do.
   */
  lemma {:induction false} SelectUniqueCases<U>(s: seq<Ref<U>>, matcher: Ref<U> -> bool)
    ensures (forall j :: 0 <= j < |s| ==> !(matcher(s[j]) && s[j].Obj?)) ==> SelectUniqueAsWritten(s, matcher) == Ok(Null)
    ensures forall i :: 0 <= i < |s| && matcher(s[i]) && s[i].Obj? && (forall j :: 0 <= j < |s| && j != i ==> !matcher(s[j])) ==>
      SelectUniqueAsWritten(s, matcher) == Ok(s[i])
    ensures forall i, j :: 0 <= i < j < |s| && matcher(s[i]) && matcher(s[j]) && s[i].Obj? && s[j].Obj? ==>
      SelectUniqueAsWritten(s, matcher) == Threw(NotUniqueItem)
    decreases |s|
  {
    if s != [] {
      SelectUniqueCases(s[1..], matcher);
      forall i | 0 < i < |s| ensures s[1..][i - 1] == s[i] { }
      if matcher(s[0]) && s[0].Obj? {
        forall i, j | 0 <= i < j < |s| && matcher(s[i]) && matcher(s[j]) && s[i].Obj? && s[j].Obj?
          ensures AnyMatch(s[1..], matcher)
        {
          assert matcher(s[1..][j - 1]);
        }
      }
    }
  }

  /** A matcher that accepts every item. */
  function MatchesAnything<U>(x: U): bool
  {
    true
  }

  /**
   * The code as written depends on where a matching null sits: with both
   * items matching, null first returns the other item, null last throws.
   */
  lemma SelectUniqueDependsOnOrder()
    ensures SelectUniqueAsWritten([Null, Obj(1)], MatchesAnything) == Ok(Obj(1))
    ensures SelectUniqueAsWritten([Obj(1), Null], MatchesAnything) == Threw(NotUniqueItem)
  {
    var one: seq<Ref<int>> := [Obj(1)];
    var both: seq<Ref<int>> := [Null, Obj(1)];
    assert both[1..] == one;
    assert !AnyMatch(one[1..], MatchesAnything);
    var reversed: seq<Ref<int>> := [Obj(1), Null];
    assert reversed[1..][0] == Null;
    assert AnyMatch(reversed[1..], MatchesAnything);
  }

  /** `selectUnique` as documented: the only matching item, null if none, an error if several. */
  function SelectUniqueIntended<U>(s: seq<Ref<U>>, matcher: Ref<U> -> bool): Result<Ref<U>>
  {
    var found := Filter(s, matcher);
    if |found| == 0 then Ok(Null)
    else if |found| == 1 then Ok(found[0])
    else Threw(NotUniqueItem)
  }

  /** Filtering two permutations of each other gives permutations of each other. */
  lemma FilterOfPermutation<T>(s: seq<T>, t: seq<T>, p: T -> bool)
    requires multiset(s) == multiset(t)
    ensures multiset(Filter(s, p)) == multiset(Filter(t, p))
  {
    var fs, ft := Filter(s, p), Filter(t, p);
    FilterContents(s, p);
    FilterContents(t, p);
    forall x ensures multiset(fs)[x] == multiset(ft)[x] {
      if x in s {
        assert x in multiset(t);
      } else {
        assert x !in multiset(t);
        assert x !in fs && x !in ft;
      }
    }
    assert multiset(fs) == multiset(ft);
  }

  /** Permutations of each other have the same length, and equal when of length one. */
  lemma SamePermutationSize<T>(a: seq<T>, b: seq<T>)
    requires multiset(a) == multiset(b)
    ensures |a| == |b|
    ensures |a| == 1 ==> a == b
  {
    assert |a| == |multiset(a)| == |multiset(b)| == |b|;
    if |a| == 1 {
      assert multiset(a) == multiset{a[0]};
      assert multiset(b) == multiset{b[0]};
      assert multiset(b)[a[0]] == 1;
    }
  }

  /** Some item matches exactly when filtering keeps something. */
  lemma AnyMatchFilter<T>(s: seq<T>, matcher: T -> bool)
    ensures AnyMatch(s, matcher) <==> Filter(s, matcher) != []
  {
    FilterContents(s, matcher);
    if Filter(s, matcher) != [] {
      var x := Filter(s, matcher)[0];
      assert x in Filter(s, matcher);
      var i :| 0 <= i < |s| && s[i] == x;
    }
    if AnyMatch(s, matcher) {
      var i :| 0 <= i < |s| && matcher(s[i]);
      assert s[i] in s;
    }
  }

  /** When no null item matches, the code as written does what its documentation says. */
  lemma {:induction false} SelectUniqueAgreesWithoutMatchingNulls<U>(s: seq<Ref<U>>, matcher: Ref<U> -> bool)
    requires forall j :: 0 <= j < |s| && matcher(s[j]) ==> s[j].Obj?
    ensures SelectUniqueAsWritten(s, matcher) == SelectUniqueIntended(s, matcher)
    decreases |s|
  {
    if s != [] {
      assert s == [s[0]] + s[1..];
      FilterCons(s[0], s[1..], matcher);
      if matcher(s[0]) {
        AnyMatchFilter(s[1..], matcher);
      } else {
        assert forall j :: 0 <= j < |s[1..]| ==> s[1..][j] == s[j + 1];
        SelectUniqueAgreesWithoutMatchingNulls(s[1..], matcher);
      }
    }
  }

  /** The documented behaviour does not depend on the order of the items. */
  lemma SelectUniqueIntendedIgnoresOrder<U>(s: seq<Ref<U>>, t: seq<Ref<U>>, matcher: Ref<U> -> bool)
    requires multiset(s) == multiset(t)
    ensures SelectUniqueIntended(s, matcher) == SelectUniqueIntended(t, matcher)
  {
    FilterOfPermutation(s, t, matcher);
    SamePermutationSize(Filter(s, matcher), Filter(t, matcher));
  }

  /** `selectDistinct` without a comparator: the HashSet of the items. */
  method SelectDistinct<T>(o: Ref<Instance<T>>) returns (r: Result<set<T>>)
    ensures o.Null? ==> r == Ok({})
    ensures IsPlain(o) ==> r == Threw(ClassCast)
    ensures IsIterable(o) ==> r == Ok(set x | x in o.value.items)
  {
    var collected: set<T> := {};
    if o.Null? {
      return Ok(collected);
    }
    if o.value.Plain? {
      return Threw(ClassCast);
    }
    var items := o.value.items;
    for i := 0 to |items|
      invariant collected == set x | x in items[..i]
    {
      assert items[..i + 1] == items[..i] + [items[i]];
      collected := collected + {items[i]};
    }
    assert items[..|items|] == items;
    return Ok(collected);
  }

  /** The comparator contract's symmetry of "compares as equal". */
  ghost predicate ZeroSymmetric<T(!new)>(compare: (T, T) -> int)
  {
    forall a, b :: compare(a, b) == 0 <==> compare(b, a) == 0
  }

  /**
   * `selectDistinct` with a comparator (a PropertyComparator, an
   * ArgumentComparator or any other): the TreeSet that keeps the first of
   * the items that compare as equal.
   */
  method SelectDistinctBy<T(!new)>(o: Ref<Instance<T>>, compare: (T, T) -> int) returns (r: Result<set<T>>)
    requires ZeroSymmetric(compare)
    ensures o.Null? ==> r == Ok({})
    ensures IsPlain(o) ==> r == Threw(ClassCast)
    ensures IsIterable(o) ==> r.Ok? && forall x :: x in r.value ==> x in o.value.items
    ensures IsIterable(o) ==> r.Ok? && forall x :: x in o.value.items ==>
      x in r.value || exists y :: y in r.value && compare(x, y) == 0
    ensures IsIterable(o) ==> r.Ok? && forall x, y :: x in r.value && y in r.value && x != y ==> compare(x, y) != 0
  {
    var collected: set<T> := {};
    if o.Null? {
      return Ok(collected);
    }
    if o.value.Plain? {
      return Threw(ClassCast);
    }
    var items := o.value.items;
    for i := 0 to |items|
      invariant forall x :: x in collected ==> x in items
      invariant forall j :: 0 <= j < i ==> items[j] in collected || exists y :: y in collected && compare(items[j], y) == 0
      invariant forall x, y :: x in collected && y in collected && x != y ==> compare(x, y) != 0
    {
      if !exists y :: y in collected && compare(items[i], y) == 0 {
        collected := collected + {items[i]};
      }
    }
    return Ok(collected);
  }

  // ---------------------------------------------------------------------
  // aggregate
  // ---------------------------------------------------------------------

  /** The left fold `op(...op(op(acc, s[0]), s[1])..., s[n-1])`. */
  function FoldFrom<T>(acc: T, s: seq<T>, op: (T, T) -> T): T
    decreases |s|
  {
    if s == [] then acc else op(FoldFrom(acc, s[..|s| - 1], op), s[|s| - 1])
  }

  /** What an Aggregator makes of a list of items. */
  function Aggregated<T>(aggregator: Aggregator<T>, s: seq<T>): T
  {
    FoldFrom(aggregator.emptyItem, s, aggregator.aggregate)
  }

  /** Folding a concatenation folds the second part from where the first ended. */
  lemma {:induction false} FoldAppend<T>(acc: T, a: seq<T>, b: seq<T>, op: (T, T) -> T)
    ensures FoldFrom(acc, a + b, op) == FoldFrom(FoldFrom(acc, a, op), b, op)
    decreases |b|
  {
    if b == [] {
      assert a + b == a;
    } else {
      var b' := b[..|b| - 1];
      assert (a + b)[..|a + b| - 1] == a + b';
      assert (a + b)[|a + b| - 1] == b[|b| - 1];
      FoldAppend(acc, a, b', op);
    }
  }

  /** The aggregator's operation is associative and its empty item is neutral. */
  ghost predicate IsMonoid<T(!new)>(aggregator: Aggregator<T>)
  {
    && (forall x, y, z :: aggregator.aggregate(aggregator.aggregate(x, y), z) == aggregator.aggregate(x, aggregator.aggregate(y, z)))
    && (forall x :: aggregator.aggregate(aggregator.emptyItem, x) == x)
    && (forall x :: aggregator.aggregate(x, aggregator.emptyItem) == x)
  }

  lemma {:induction false} FoldFromMonoid<T(!new)>(aggregator: Aggregator<T>, acc: T, s: seq<T>)
    requires IsMonoid(aggregator)
    ensures FoldFrom(acc, s, aggregator.aggregate) == aggregator.aggregate(acc, Aggregated(aggregator, s))
    decreases |s|
  {
    if s == [] {
    } else {
      FoldFromMonoid(aggregator, acc, s[..|s| - 1]);
    }
  }

  /** For an associative aggregator, the aggregate of a concatenation combines the aggregates of its parts. */
  lemma AggregatedAppend<T(!new)>(aggregator: Aggregator<T>, a: seq<T>, b: seq<T>)
    requires IsMonoid(aggregator)
    ensures Aggregated(aggregator, a + b) == aggregator.aggregate(Aggregated(aggregator, a), Aggregated(aggregator, b))
  {
    FoldAppend(aggregator.emptyItem, a, b, aggregator.aggregate);
    FoldFromMonoid(aggregator, Aggregated(aggregator, a), b);
  }

  /** `aggregate(iterable, aggregator)`: the fold of the items from `emptyItem()`. */
  method Aggregate<T>(o: Ref<Instance<T>>, aggregator: Aggregator<T>) returns (r: Result<T>)
    ensures o.Null? ==> r == Ok(aggregator.emptyItem)
    ensures IsPlain(o) ==> r == Threw(ClassCast)
    ensures IsIterable(o) ==> r == Ok(Aggregated(aggregator, o.value.items))
  {
    var result := aggregator.emptyItem;
    if o.Null? {
      return Ok(result);
    }
    if o.value.Plain? {
      return Threw(ClassCast);
    }
    var items := o.value.items;
    for i := 0 to |items|
      invariant result == FoldFrom(aggregator.emptyItem, items[..i], aggregator.aggregate)
    {
      assert items[..i + 1][..i] == items[..i];
      result := aggregator.aggregate(result, items[i]);
    }
    assert items[..|items|] == items;
    return Ok(result);
  }

  /** `aggregate(iterable, aggregator, argument)`: the fold of the argument values; only an Iterable is accepted. */
  method AggregateOn<T, A>(o: Ref<Instance<T>>, aggregator: Aggregator<A>, argument: T -> A) returns (r: Result<A>)
    ensures !IsIterable(o) ==> r == Threw(NotAnIterable)
    ensures IsIterable(o) ==> r == Ok(Aggregated(aggregator, Mapped(o.value.items, argument)))
  {
    if !IsIterable(o) {
      return Threw(NotAnIterable);
    }
    var converted := Convert(o, argument);
    r := Aggregate(Obj(IterableOf(converted.value)), aggregator);
  }

  // ---------------------------------------------------------------------
  // join
  // ---------------------------------------------------------------------

  /**
   * `join(iterable, separator)`: an Iterable is aggregated with the Concat
   * aggregator built for the separator (`concat`), null gives "" and any
   * other object its `toString()`. Items are taken by their string forms.
   */
  function Join(o: Ref<Instance<string>>, separator: string, concat: string -> Aggregator<string>): (s: string)
    ensures o.Null? ==> s == ""
    ensures IsPlain(o) ==> s == o.value.text
    ensures IsIterable(o) ==> s == Aggregated(concat(separator), o.value.items)
    ensures IsIterable(o) && o.value.items == [] ==> s == concat(separator).emptyItem
  {
    match o
    case Obj(IterableOf(items)) => Aggregated(concat(separator), items)
    case Null => ""
    case Obj(Plain(text)) => text
  }

  /** `join(iterable)`: `join` with the default separator ", ". */
  function JoinWithCommas(o: Ref<Instance<string>>, concat: string -> Aggregator<string>): (s: string)
    ensures o.Null? ==> s == ""
    ensures IsPlain(o) ==> s == o.value.text
    ensures IsIterable(o) ==> s == Aggregated(concat(", "), o.value.items)
  {
    Join(o, ", ", concat)
  }

  /**
   * The documented promise of `join`: an empty String for null and for an
   * empty Iterable, given that Concat starts from the empty String.
   */
  lemma JoinOfNothing(separator: string, concat: string -> Aggregator<string>)
    requires concat(separator).emptyItem == ""
    ensures Join(Null, separator, concat) == ""
    ensures Join(Obj(IterableOf([])), separator, concat) == ""
  {
  }

  /** When Concat forms a monoid, joining a concatenation concatenates the joins. */
  lemma JoinOfConcatenation(a: seq<string>, b: seq<string>, separator: string, concat: string -> Aggregator<string>)
    requires IsMonoid(concat(separator))
    ensures Join(Obj(IterableOf(a + b)), separator, concat) ==
      concat(separator).aggregate(Join(Obj(IterableOf(a)), separator, concat), Join(Obj(IterableOf(b)), separator, concat))
  {
    AggregatedAppend(concat(separator), a, b);
  }

  // ---------------------------------------------------------------------
  // convert, extract, extractString
  // ---------------------------------------------------------------------

  /** `convert(iterable, converter)`: one converted value per item, in order. */
  method Convert<F, T>(o: Ref<Instance<F>>, converter: F -> T) returns (r: Result<seq<T>>)
    ensures o.Null? ==> r == Ok([])
    ensures IsPlain(o) ==> r == Threw(ClassCast)
    ensures IsIterable(o) ==> r == Ok(Mapped(o.value.items, converter))
    ensures IsIterable(o) ==> r.Ok? && |r.value| == |o.value.items|
    ensures IsIterable(o) ==> r.Ok? && forall i :: 0 <= i < |r.value| ==> r.value[i] == converter(o.value.items[i])
  {
    var collected: seq<T> := [];
    if o.Null? {
      return Ok(collected);
    }
    if o.value.Plain? {
      return Threw(ClassCast);
    }
    var items := o.value.items;
    for i := 0 to |items|
      invariant collected == Mapped(items[..i], converter)
    {
      assert items[..i + 1][..i] == items[..i];
      collected := collected + [converter(items[i])];
    }
    assert items[..|items|] == items;
    return Ok(collected);
  }

  /** `extract(iterable, argument)`: `convert` with the argument's value. */
  method Extract<F, T>(o: Ref<Instance<F>>, argument: F -> T) returns (r: Result<seq<T>>)
    ensures o.Null? ==> r == Ok([])
    ensures IsPlain(o) ==> r == Threw(ClassCast)
    ensures IsIterable(o) ==> r.Ok? && |r.value| == |o.value.items|
    ensures IsIterable(o) ==> r.Ok? && forall i :: 0 <= i < |r.value| ==> r.value[i] == argument(o.value.items[i])
  {
    r := Convert(o, argument);
  }

  /** `extractString(iterable)`: the DefaultStringConverter applied to every item. */
  method ExtractString<U>(o: Ref<Instance<Ref<U>>>, toString: U -> string) returns (r: Result<seq<string>>)
    ensures o.Null? ==> r == Ok([])
    ensures IsPlain(o) ==> r == Threw(ClassCast)
    ensures IsIterable(o) ==> r.Ok? && |r.value| == |o.value.items|
    ensures IsIterable(o) ==> r.Ok? && forall i :: 0 <= i < |r.value| ==>
      r.value[i] == (if o.value.items[i].Null? then "" else toString(o.value.items[i].value))
  {
    r := Convert(o, (x: Ref<U>) => StringConverter.Convert(x, toString));
  }

  // ---------------------------------------------------------------------
  // map, index
  // ---------------------------------------------------------------------

  /** `s[j]` is the last item of `s` whose converted value is `k`. */
  ghost predicate LastWith<F, K>(s: seq<F>, converter: F -> K, k: K, j: int)
  {
    0 <= j < |s| && converter(s[j]) == k && forall j' :: j < j' < |s| ==> converter(s[j']) != k
  }

  /** The HashMap from converted value to item that `map` builds: the later item wins. */
  function LastWins<F, K>(s: seq<F>, converter: F -> K): map<K, F>
    decreases |s|
  {
    if s == [] then map[]
    else LastWins(s[..|s| - 1], converter)[converter(s[|s| - 1]) := s[|s| - 1]]
  }

  /** Every item's converted value is a key, and each key holds the last item converted to it. */
  lemma {:induction false} LastWinsIndexes<F, K>(s: seq<F>, converter: F -> K)
    ensures forall j :: 0 <= j < |s| ==> converter(s[j]) in LastWins(s, converter)
    ensures forall k :: k in LastWins(s, converter) ==>
      exists j :: LastWith(s, converter, k, j) && LastWins(s, converter)[k] == s[j]
    decreases |s|
  {
    if s != [] {
      var n := |s| - 1;
      var front := s[..n];
      LastWinsIndexes(front, converter);
      var m, fm := LastWins(s, converter), LastWins(front, converter);
      assert m == fm[converter(s[n]) := s[n]];
      forall j | 0 <= j < |s| ensures converter(s[j]) in m {
        if j < n {
          assert front[j] == s[j];
        }
      }
      forall k | k in m ensures exists j :: LastWith(s, converter, k, j) && m[k] == s[j] {
        if k == converter(s[n]) {
          assert LastWith(s, converter, k, n);
        } else {
          assert k in fm;
          var j :| LastWith(front, converter, k, j) && fm[k] == front[j];
          forall j' | j < j' < |s| ensures converter(s[j']) != k {
            if j' < n {
              assert front[j'] == s[j'];
            }
          }
          assert LastWith(s, converter, k, j);
        }
      }
    }
  }

  /** `map(iterable, converter)`: every item under its converted value. */
  method MapBy<F, K>(o: Ref<Instance<F>>, converter: F -> K) returns (r: Result<map<K, F>>)
    ensures o.Null? ==> r == Ok(map[])
    ensures IsPlain(o) ==> r == Threw(ClassCast)
    ensures IsIterable(o) ==> r == Ok(LastWins(o.value.items, converter))
    ensures IsIterable(o) ==> r.Ok? && (forall j :: 0 <= j < |o.value.items| ==> converter(o.value.items[j]) in r.value)
    ensures IsIterable(o) ==> r.Ok? && forall k :: k in r.value ==>
      exists j :: LastWith(o.value.items, converter, k, j) && r.value[k] == o.value.items[j]
  {
    var m: map<K, F> := map[];
    if o.Null? {
      return Ok(m);
    }
    if o.value.Plain? {
      return Threw(ClassCast);
    }
    var items := o.value.items;
    for i := 0 to |items|
      invariant m == LastWins(items[..i], converter)
    {
      assert items[..i + 1][..i] == items[..i];
      m := m[converter(items[i]) := items[i]];
    }
    assert items[..|items|] == items;
    LastWinsIndexes(items, converter);
    return Ok(m);
  }

  /** `index(iterable, argument)`: `map` keyed on the argument's value. */
  method Index<F, K>(o: Ref<Instance<F>>, argument: F -> K) returns (r: Result<map<K, F>>)
    ensures o.Null? ==> r == Ok(map[])
    ensures IsPlain(o) ==> r == Threw(ClassCast)
    ensures IsIterable(o) ==> r.Ok? && (forall j :: 0 <= j < |o.value.items| ==> argument(o.value.items[j]) in r.value)
    ensures IsIterable(o) ==> r.Ok? && forall k :: k in r.value ==>
      exists j :: LastWith(o.value.items, argument, k, j) && r.value[k] == o.value.items[j]
  {
    r := MapBy(o, argument);
  }
}
