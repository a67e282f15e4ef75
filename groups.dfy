/**
 * lambdaj's `Groups.group`: items bucketed by the first condition, and
 * every bucket's items grouped again by the remaining conditions, one
 * nesting level per condition.
 *
 * The finished grouping is a value: the buckets of each level in creation
 * order, each with the key the level's map registers it under, its alias,
 * its heads, and either its items (last level) or its subgroups.
 */
module Groups {
  import opened JavaLang
  import opened Sequences
  import opened Grouping

  datatype Tree<T> = Tree(buckets: seq<Bucket<T>>)

  datatype Bucket<T> = Bucket(key: string, alias: Ref<string>, heads: map<string, string>, children: Children<T>)

  /** What `setChildren` leaves in a bucket: its own items, or the grouping of them by the next condition. */
  datatype Children<T> = Items(items: seq<T>) | Subgroups(group: Tree<T>)

  /** The grouping of `items` by `conditions`, level by level. */
  function Grouped<T>(items: seq<T>, conditions: seq<Condition<T>>): (t: Tree<T>)
    requires conditions != []
    ensures |t.buckets| == |FirstSeen(items, conditions[0].groupValue)|
    ensures forall i :: 0 <= i < |t.buckets| ==>
      t.buckets[i] == BucketOf(items, conditions, FirstSeen(items, conditions[0].groupValue)[i])
    decreases |conditions|, 1
  {
    var ks := FirstSeen(items, conditions[0].groupValue);
    Tree(seq(|ks|, i requires 0 <= i < |ks| => BucketOf(items, conditions, ks[i])))
  }

  /** The bucket of key `k` at the level of `conditions[0]`. */
  function BucketOf<T>(items: seq<T>, conditions: seq<Condition<T>>, k: string): Bucket<T>
    requires conditions != []
    decreases |conditions|, 0
  {
    var c := conditions[0];
    var members := Members(items, c.groupValue, k);
    Bucket(k, c.alias, if members == [] then map[] else HeadsOf(c, k, members[0]),
      if |conditions| == 1 then Items(members) else Subgroups(Grouped(members, conditions[1..])))
  }

  /** Every item in a grouping, bucket after bucket, level by level. */
  function AllItems<T>(t: Tree<T>): seq<T>
    decreases t
  {
    AllOf(t.buckets)
  }

  function AllOf<T>(bs: seq<Bucket<T>>): seq<T>
    decreases bs
  {
    if bs == [] then [] else ItemsOf(bs[0]) + AllOf(bs[1..])
  }

  function ItemsOf<T>(b: Bucket<T>): seq<T>
    decreases b
  {
    match b.children
    case Items(xs) => xs
    case Subgroups(g) => AllItems(g)
  }

  /** Every path from the top to the items crosses exactly `n` levels. */
  ghost predicate HasDepth<T>(t: Tree<T>, n: nat)
    decreases t
  {
    forall i :: 0 <= i < |t.buckets| ==>
      if n <= 1 then t.buckets[i].children.Items?
      else t.buckets[i].children.Subgroups? && HasDepth(t.buckets[i].children.group, n - 1)
  }

  /** Grouping loses and duplicates no item, at any depth. */
  lemma {:induction false} GroupedKeepsItems<T>(items: seq<T>, conditions: seq<Condition<T>>)
    requires conditions != []
    ensures multiset(AllItems(Grouped(items, conditions))) == multiset(items)
    decreases |conditions|, 1, 0
  {
    var ks := FirstSeen(items, conditions[0].groupValue);
    BucketsKeepItems(items, conditions, ks, Grouped(items, conditions).buckets);
    PartitionIsPermutation(items, conditions[0].groupValue);
  }

  lemma {:induction false} BucketsKeepItems<T>(items: seq<T>, conditions: seq<Condition<T>>, ks: seq<string>, bs: seq<Bucket<T>>)
    requires conditions != []
    requires |bs| == |ks| && forall i :: 0 <= i < |bs| ==> bs[i] == BucketOf(items, conditions, ks[i])
    ensures multiset(AllOf(bs)) == multiset(Partition(items, conditions[0].groupValue, ks))
    decreases |conditions|, 0, |ks|
  {
    if bs != [] {
      var members := Members(items, conditions[0].groupValue, ks[0]);
      if |conditions| > 1 {
        GroupedKeepsItems(members, conditions[1..]);
      }
      assert multiset(ItemsOf(bs[0])) == multiset(members);
      assert forall i :: 0 <= i < |bs[1..]| ==> bs[1..][i] == bs[i + 1] && ks[1..][i] == ks[i + 1];
      BucketsKeepItems(items, conditions, ks[1..], bs[1..]);
    }
  }

  /** The nesting is as deep as the list of conditions is long. */
  lemma {:induction false} GroupedDepth<T>(items: seq<T>, conditions: seq<Condition<T>>)
    requires conditions != []
    ensures HasDepth(Grouped(items, conditions), |conditions|)
    decreases |conditions|
  {
    var t := Grouped(items, conditions);
    var ks := FirstSeen(items, conditions[0].groupValue);
    forall i | 0 <= i < |t.buckets|
      ensures if |conditions| <= 1 then t.buckets[i].children.Items?
        else t.buckets[i].children.Subgroups? && HasDepth(t.buckets[i].children.group, |conditions| - 1)
    {
      if |conditions| > 1 {
        GroupedDepth(Members(items, conditions[0].groupValue, ks[i]), conditions[1..]);
      }
    }
  }

  /**
   * One bucket per distinct key of the first condition, in first-seen
   * order; each holds exactly the items with its key (at the last level in
   * their original order), the condition's alias, and heads written from
   * its first item.
   */
  lemma GroupedBuckets<T>(items: seq<T>, conditions: seq<Condition<T>>)
    requires conditions != []
    ensures var t, c := Grouped(items, conditions), conditions[0];
      && (forall i, j :: 0 <= i < j < |t.buckets| ==> t.buckets[i].key != t.buckets[j].key)
      && (forall i :: 0 <= i < |items| ==> exists j :: 0 <= j < |t.buckets| && t.buckets[j].key == c.groupValue(items[i]))
      && (forall j :: 0 <= j < |t.buckets| ==> Members(items, c.groupValue, t.buckets[j].key) != [])
      && (forall j :: 0 <= j < |t.buckets| ==>
        multiset(ItemsOf(t.buckets[j])) == multiset(Members(items, c.groupValue, t.buckets[j].key)))
      && (forall j :: 0 <= j < |t.buckets| && |conditions| == 1 ==>
        t.buckets[j].children == Items(Members(items, c.groupValue, t.buckets[j].key)))
      && (forall j :: 0 <= j < |t.buckets| ==> t.buckets[j].alias == c.alias)
      && (forall j :: 0 <= j < |t.buckets| ==>
        t.buckets[j].heads == HeadsOf(c, t.buckets[j].key, Members(items, c.groupValue, t.buckets[j].key)[0]))
  {
    var t, c := Grouped(items, conditions), conditions[0];
    var ks := FirstSeen(items, c.groupValue);
    FirstSeenContents(items, c.groupValue);
    forall j | 0 <= j < |t.buckets|
      ensures Members(items, c.groupValue, ks[j]) != []
      ensures multiset(ItemsOf(t.buckets[j])) == multiset(Members(items, c.groupValue, ks[j]))
    {
      SeenKeyHasMembers(items, c.groupValue, ks[j]);
      if |conditions| > 1 {
        GroupedKeepsItems(Members(items, c.groupValue, ks[j]), conditions[1..]);
      }
    }
    forall i | 0 <= i < |items|
      ensures exists j :: 0 <= j < |t.buckets| && t.buckets[j].key == c.groupValue(items[i])
    {
      assert c.groupValue(items[i]) in ks;
      var j := IndexOf(ks, c.groupValue(items[i]));
      assert t.buckets[j].key == ks[j];
    }
  }

  /** The only key the map registers bucket `j` under is the `j`-th key. */
  lemma RegisteredKey<T>(group: GroupImpl<T>, j: int, key: string)
    requires group.Valid() && 0 <= j < |group.buckets|
    requires key in group.groupsMap && group.groupsMap[key] == group.buckets[j]
    ensures key == group.Keys()[j]
  {
    var m := IndexOf(group.Keys(), key);
    assert group.buckets[m] == group.buckets[j];
  }

  /** Bucket `j` of a GroupImpl that holds `items`, with its items regrouped, is bucket `j` of the grouping. */
  lemma BucketMatches<T>(group: GroupImpl<T>, items: seq<T>, conditions: seq<Condition<T>>, j: int, children: Children<T>)
    requires conditions != [] && group.Valid() && group.condition == conditions[0] && group.added == items
    requires 0 <= j < |group.buckets|
    requires children == if |conditions| == 1 then Items(group.buckets[j].children)
      else Subgroups(Grouped(group.buckets[j].children, conditions[1..]))
    ensures Bucket(group.Keys()[j], group.buckets[j].alias, group.buckets[j].heads, children) ==
      BucketOf(items, conditions, group.Keys()[j])
  {
    assert Holds(conditions[0], items, group.buckets[j], group.Keys()[j]);
  }

  /**
   * `group(iterable, conditions...)`: the first condition is read before
   * the iterable, so no condition at all fails on the array access and a
   * null iterable on the for-each. Every item is added to a GroupImpl of
   * the first condition; with more conditions every bucket's items are
   * grouped again by the rest.
   */
  method Group<T>(iterable: Ref<seq<T>>, conditions: seq<Condition<T>>) returns (r: Result<Tree<T>>)
    ensures conditions == [] ==> r == Threw(ArrayIndexOutOfBounds)
    ensures conditions != [] && iterable.Null? ==> r == Threw(NullPointer)
    ensures conditions != [] && iterable.Obj? ==> r == Ok(Grouped(iterable.value, conditions))
    decreases |conditions|, 2
  {
    if |conditions| == 0 {
      return Threw(ArrayIndexOutOfBounds);
    }
    if iterable.Null? {
      return Threw(NullPointer);
    }
    var group := Level(iterable.value, conditions[0]);
    var buckets := Regroup(group, iterable.value, conditions);
    return Ok(Tree(buckets));
  }

  /** A fresh GroupImpl of `condition` with every item added, in order. */
  method Level<T>(items: seq<T>, condition: Condition<T>) returns (group: GroupImpl<T>)
    ensures group.Valid() && fresh(group.Repr)
    ensures group.condition == condition && group.added == items
  {
    group := new GroupImpl(condition);
    for i := 0 to |items|
      invariant group.Valid() && fresh(group.Repr)
      invariant group.condition == condition && group.added == items[..i]
    {
      assert items[..i + 1] == items[..i] + [items[i]];
      group.Add(items[i]);
    }
    assert items[..|items|] == items;
  }

  /**
   * The buckets of a filled GroupImpl; with more than one condition, every
   * bucket's items are grouped again by the remaining ones (the
   * `setChildren` loop).
   */
  method Regroup<T>(group: GroupImpl<T>, items: seq<T>, conditions: seq<Condition<T>>) returns (buckets: seq<Bucket<T>>)
    requires conditions != [] && group.Valid()
    requires group.condition == conditions[0] && group.added == items
    ensures buckets == Grouped(items, conditions).buckets
    decreases |conditions|, 1
  {
    ghost var ks := group.Keys();
    assert |group.buckets| == |ks|;
    buckets := [];
    for j := 0 to |group.buckets|
      modifies {}
      invariant |buckets| == j
      invariant forall i :: 0 <= i < j ==> buckets[i] == BucketOf(items, conditions, ks[i])
    {
      var bucket := RegroupBucket(group, items, conditions, j);
      buckets := buckets + [bucket];
    }
    assert |Grouped(items, conditions).buckets| == |ks|;
  }

  /**
   * Bucket `j` under the key the map registers it with, its children
   * grouped again by the remaining conditions when there are any.
   */
  method RegroupBucket<T>(group: GroupImpl<T>, items: seq<T>, conditions: seq<Condition<T>>, j: int)
    returns (bucket: Bucket<T>)
    requires conditions != [] && group.Valid()
    requires group.condition == conditions[0] && group.added == items
    requires 0 <= j < |group.buckets|
    ensures bucket == BucketOf(items, conditions, group.Keys()[j])
    decreases |conditions|, 0
  {
    var groupItem := group.buckets[j];
    assert group.Keys()[j] in group.groupsMap && group.groupsMap[group.Keys()[j]] == groupItem;
    var key :| key in group.groupsMap && group.groupsMap[key] == groupItem;
    RegisteredKey(group, j, key);
    var children: Children<T>;
    if |conditions| > 1 {
      var sub := Group(Obj(groupItem.AsList()), conditions[1..]);
      children := Subgroups(sub.value);
    } else {
      children := Items(groupItem.AsList());
    }
    BucketMatches(group, items, conditions, j, children);
    bucket := Bucket(key, groupItem.alias, groupItem.heads, children);
  }

  /** `group(iterable, collection)`: the array overload on `conditions.toArray()`. */
  method GroupByCollection<T>(iterable: Ref<seq<T>>, conditions: seq<Condition<T>>) returns (r: Result<Tree<T>>)
    ensures conditions == [] ==> r == Threw(ArrayIndexOutOfBounds)
    ensures conditions != [] && iterable.Null? ==> r == Threw(NullPointer)
    ensures conditions != [] && iterable.Obj? ==> r == Ok(Grouped(iterable.value, conditions))
  {
    r := Group(iterable, conditions);
  }

  /**
   * `group(iterable, groupers...)`: one StringGroupCondition per grouper,
   * in order, then the array overload. `stringCondition` stands for the
   * StringGroupCondition constructor.
   */
  method GroupByNames<T>(iterable: Ref<seq<T>>, groupers: seq<string>, stringCondition: string -> Condition<T>)
    returns (r: Result<Tree<T>>)
    ensures groupers == [] ==> r == Threw(ArrayIndexOutOfBounds)
    ensures groupers != [] && iterable.Null? ==> r == Threw(NullPointer)
    ensures groupers != [] && iterable.Obj? ==> r == Ok(Grouped(iterable.value, Mapped(groupers, stringCondition)))
  {
    var conditions: seq<Condition<T>> := [];
    for i := 0 to |groupers|
      invariant conditions == Mapped(groupers[..i], stringCondition)
    {
      assert groupers[..i + 1][..i] == groupers[..i];
      conditions := conditions + [stringCondition(groupers[i])];
    }
    assert groupers[..|groupers|] == groupers;
    r := Group(iterable, conditions);
  }

  /**
   * `by(argument)`: a condition keyed on the string form of the argument's
   * value, stored under `groupName`, with no alias and no additional
   * properties.
   */
  function By<T(!new), K>(argument: T -> K, toString: K -> string, groupName: string): (c: Condition<T>)
    ensures c.groupName == groupName && c.alias == Null && c.propertyNames == []
    ensures forall x :: c.groupValue(x) == toString(argument(x))
  {
    Condition(x => toString(argument(x)), groupName, Null, [], (name, x) => "")
  }
}
