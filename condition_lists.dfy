/**
 * The 1.10 GroupConditions: a linked list of string grouping conditions in
 * which `by` starts a new condition and `as` and `head` refine the last one.
 */
module ConditionLists {
  import opened JavaLang

  /**
   * A call made on a StringGroupCondition. Its class body is not part of
   * this model, so the condition records the calls it receives, in order and
   * with their arguments as passed.
   */
  datatype ConditionCall =
    | AsCall(alias: string)
    | HeadCall(property: string)
    | HeadPairCall(first: string, second: string)

  class StringGroupCondition {
    const groupBy: string
    var calls: seq<ConditionCall>

    constructor (groupBy: string)
      ensures this.groupBy == groupBy
      ensures calls == []
    {
      this.groupBy := groupBy;
      calls := [];
    }

    /** `as(alias)`. */
    method As(alias: string)
      modifies this
      ensures calls == old(calls) + [AsCall(alias)]
    {
      calls := calls + [AsCall(alias)];
    }

    /** `head(property)`. */
    method Head(property: string)
      modifies this
      ensures calls == old(calls) + [HeadCall(property)]
    {
      calls := calls + [HeadCall(property)];
    }

    /** The two-argument `head(first, second)`. */
    method HeadPair(first: string, second: string)
      modifies this
      ensures calls == old(calls) + [HeadPairCall(first, second)]
    {
      calls := calls + [HeadPairCall(first, second)];
    }
  }

  class GroupConditions {
    var conditions: seq<StringGroupCondition>
    ghost var Repr: set<object>

    /** Every condition is a separate object owned by the list. */
    ghost predicate Valid()
      reads this, Repr
    {
      && this in Repr
      && (forall i :: 0 <= i < |conditions| ==> conditions[i] in Repr)
      && (forall i, j :: 0 <= i < j < |conditions| ==> conditions[i] != conditions[j])
    }

    /** The last condition, which `as` and `head` act on. */
    function Last(): StringGroupCondition
      reads this
      requires conditions != []
    {
      conditions[|conditions| - 1]
    }

    /** The frame of `as` and `head`: the last condition, or nothing when there is none. */
    function LastFrame(): set<object>
      reads this
    {
      if conditions == [] then {} else {Last()}
    }

    constructor ()
      ensures Valid() && fresh(Repr)
      ensures conditions == []
    {
      conditions := [];
      Repr := {this};
    }

    /** `by(groupBy)`: appends one new condition and leaves the earlier ones alone. */
    method By(groupBy: string)
      requires Valid()
      modifies this
      ensures Valid() && fresh(Repr - old(Repr))
      ensures |conditions| == |old(conditions)| + 1
      ensures conditions[..|old(conditions)|] == old(conditions)
      ensures forall i :: 0 <= i < |old(conditions)| ==> unchanged(conditions[i])
      ensures fresh(Last()) && Last().groupBy == groupBy && Last().calls == []
    {
      var c := new StringGroupCondition(groupBy);
      conditions := conditions + [c];
      Repr := Repr + {c};
    }

    /**
     * `as(alias)`: forwarded to the last condition. On an empty list
     * `getLast` throws NoSuchElementException.
     */
    method As(alias: string) returns (s: Status)
      requires Valid()
      modifies LastFrame()
      ensures Valid()
      ensures old(conditions) == [] ==> s == Raised(NoSuchElement)
      ensures old(conditions) != [] ==> s == Returned && Last().calls == old(Last().calls) + [AsCall(alias)]
      ensures forall i :: 0 <= i < |conditions| - 1 ==> unchanged(conditions[i])
    {
      if conditions == [] {
        return Raised(NoSuchElement);
      }
      Last().As(alias);
      s := Returned;
    }

    /** `head(property)`: forwarded to the last condition. */
    method Head(property: string) returns (s: Status)
      requires Valid()
      modifies LastFrame()
      ensures Valid()
      ensures old(conditions) == [] ==> s == Raised(NoSuchElement)
      ensures old(conditions) != [] ==> s == Returned && Last().calls == old(Last().calls) + [HeadCall(property)]
      ensures forall i :: 0 <= i < |conditions| - 1 ==> unchanged(conditions[i])
    {
      if conditions == [] {
        return Raised(NoSuchElement);
      }
      Last().Head(property);
      s := Returned;
    }

    /**
     * `head(property, alias)`: forwarded to the last condition as
     * `head(alias, property)`, the arguments swapped.
     */
    method HeadAs(property: string, alias: string) returns (s: Status)
      requires Valid()
      modifies LastFrame()
      ensures Valid()
      ensures old(conditions) == [] ==> s == Raised(NoSuchElement)
      ensures old(conditions) != [] ==> s == Returned && Last().calls == old(Last().calls) + [HeadPairCall(alias, property)]
      ensures forall i :: 0 <= i < |conditions| - 1 ==> unchanged(conditions[i])
    {
      if conditions == [] {
        return Raised(NoSuchElement);
      }
      Last().HeadPair(alias, property);
      s := Returned;
    }
  }
}
