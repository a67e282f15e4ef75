/**
 * One level of lambdaj grouping: `GroupImpl` buckets items by the key its
 * condition computes, keeping a HashMap from key to bucket and the list of
 * buckets in creation order. A bucket (`GroupItem`) holds the head values
 * written when it was created and the items added to it.
 */
module Grouping {
  import opened JavaLang
  import opened Sequences

  /**
   * What a GroupImpl asks of its condition: the key of an item, the name
   * under which the key is stored among the heads, the alias of the
   * buckets, and the additional properties with their value for an item.
   */
  datatype Condition<!T> = Condition(
    groupValue: T -> string,
    groupName: string,
    alias: Ref<string>,
    propertyNames: seq<string>,
    propertyValue: (string, T) -> string)

  /** The distinct keys of `items`, in the order they first appear. */
  function FirstSeen<T>(items: seq<T>, key: T -> string): seq<string>
    decreases |items|
  {
    if items == [] then []
    else
      var front := FirstSeen(items[..|items| - 1], key);
      var k := key(items[|items| - 1]);
      if k in front then front else front + [k]
  }

  /** No key is listed twice. */
  ghost predicate Distinct(ks: seq<string>)
  {
    forall i, j :: 0 <= i < j < |ks| ==> ks[i] != ks[j]
  }

  /** FirstSeen lists every key of the items once, and nothing else. */
  lemma {:induction false} FirstSeenContents<T>(items: seq<T>, key: T -> string)
    ensures Distinct(FirstSeen(items, key))
    ensures forall k :: k in FirstSeen(items, key) ==> exists i :: 0 <= i < |items| && key(items[i]) == k
    ensures forall i :: 0 <= i < |items| ==> key(items[i]) in FirstSeen(items, key)
    decreases |items|
  {
    if items != [] {
      var front := items[..|items| - 1];
      FirstSeenContents(front, key);
      assert forall i :: 0 <= i < |items| - 1 ==> front[i] == items[i];
    }
  }

  /** The position of `k` in `ks`. */
  function IndexOf(ks: seq<string>, k: string): (i: int)
    requires k in ks
    ensures 0 <= i < |ks| && ks[i] == k
    decreases |ks|
  {
    if ks[0] == k then 0 else 1 + IndexOf(ks[1..], k)
  }

  function HasKey<T>(key: T -> string, k: string): T -> bool
  {
    x => key(x) == k
  }

  /** The items whose key is `k`, in their original order. */
  function Members<T>(items: seq<T>, key: T -> string, k: string): seq<T>
  {
    Filter(items, HasKey(key, k))
  }

  /** A key no item has has no members. */
  lemma UnseenKeyHasNoMembers<T>(items: seq<T>, key: T -> string, k: string)
    requires k !in FirstSeen(items, key)
    ensures Members(items, key, k) == []
  {
    FirstSeenContents(items, key);
    FilterContents(items, HasKey(key, k));
  }

  /** A key that some item has has members. */
  lemma SeenKeyHasMembers<T>(items: seq<T>, key: T -> string, k: string)
    requires k in FirstSeen(items, key)
    ensures Members(items, key, k) != []
  {
    FirstSeenContents(items, key);
    FilterContents(items, HasKey(key, k));
    var i :| 0 <= i < |items| && key(items[i]) == k;
    assert items[i] in items;
  }

  /** FirstSeen of a list extended by one item. */
  lemma FirstSeenSnoc<T>(items: seq<T>, x: T, key: T -> string)
    ensures FirstSeen(items + [x], key) ==
      if key(x) in FirstSeen(items, key) then FirstSeen(items, key) else FirstSeen(items, key) + [key(x)]
  {
    assert (items + [x])[..|items + [x]| - 1] == items;
  }

  /** The members of every key in `ks`, key after key. */
  function Partition<T>(items: seq<T>, key: T -> string, ks: seq<string>): seq<T>
    decreases |ks|
  {
    if ks == [] then [] else Members(items, key, ks[0]) + Partition(items, key, ks[1..])
  }

  lemma DistinctTail(ks: seq<string>)
    requires ks != [] && Distinct(ks)
    ensures Distinct(ks[1..]) && ks[0] !in ks[1..]
  {
    var rest := ks[1..];
    forall i, j | 0 <= i < j < |rest| ensures rest[i] != rest[j] {
      assert rest[i] == ks[i + 1] && rest[j] == ks[j + 1];
    }
    forall j | 0 <= j < |rest| ensures rest[j] != ks[0] {
      assert rest[j] == ks[j + 1];
    }
  }

  /** Adding one item to the partitioned list adds it once, under its own key, if that key is listed. */
  lemma {:induction false} PartitionSnoc<T>(items: seq<T>, x: T, key: T -> string, ks: seq<string>)
    requires Distinct(ks)
    ensures multiset(Partition(items + [x], key, ks)) ==
      multiset(Partition(items, key, ks)) + if key(x) in ks then multiset{x} else multiset{}
    decreases |ks|
  {
    if ks != [] {
      var rest := ks[1..];
      DistinctTail(ks);
      PartitionSnoc(items, x, key, rest);
      FilterSnoc(items, x, HasKey(key, ks[0]));
      var m, p, p' := Members(items, key, ks[0]), Partition(items, key, rest), Partition(items + [x], key, rest);
      assert key(x) in ks <==> key(x) == ks[0] || key(x) in rest;
      if key(x) == ks[0] {
        assert Partition(items + [x], key, ks) == (m + [x]) + p';
        assert multiset(p') == multiset(p);
      } else {
        assert Partition(items + [x], key, ks) == m + p';
      }
    }
  }

  /** Partitioning by the keys in first-seen order loses and duplicates nothing. */
  lemma {:induction false} PartitionIsPermutation<T>(items: seq<T>, key: T -> string)
    ensures multiset(Partition(items, key, FirstSeen(items, key))) == multiset(items)
    decreases |items|
  {
    if items != [] {
      var front, x := items[..|items| - 1], items[|items| - 1];
      assert items == front + [x];
      PartitionIsPermutation(front, key);
      FirstSeenContents(items, key);
      FirstSeenSnoc(front, x, key);
      var ks := FirstSeen(front, key);
      PartitionSnoc(front, x, key, FirstSeen(items, key));
      if key(x) !in ks {
        UnseenKeyHasNoMembers(front, key, key(x));
        PartitionAppendUnseen(front, key, ks, key(x));
      }
    }
  }

  /** Appending a key without members leaves the partition as it was. */
  lemma {:induction false} PartitionAppendUnseen<T>(items: seq<T>, key: T -> string, ks: seq<string>, k: string)
    requires Members(items, key, k) == []
    ensures Partition(items, key, ks + [k]) == Partition(items, key, ks)
    decreases |ks|
  {
    if ks == [] {
      assert [k][1..] == [];
    } else {
      assert (ks + [k])[1..] == ks[1..] + [k];
      PartitionAppendUnseen(items, key, ks[1..], k);
    }
  }

  /** `heads` with every named property written in turn with its value for `item`. */
  function PutProperties<T>(heads: map<string, string>, names: seq<string>, c: Condition<T>, item: T): map<string, string>
    decreases |names|
  {
    if names == [] then heads
    else
      var last := names[|names| - 1];
      PutProperties(heads, names[..|names| - 1], c, item)[last := c.propertyValue(last, item)]
  }

  /** The heads a new bucket gets: the key under the group name, then every additional property. */
  function HeadsOf<T>(c: Condition<T>, k: string, item: T): map<string, string>
  {
    PutProperties(map[c.groupName := k], c.propertyNames, c, item)
  }

  /** The head names are the group name and the property names; each property holds its value for the item. */
  lemma {:induction false} PutPropertiesContents<T>(heads: map<string, string>, names: seq<string>, c: Condition<T>, item: T)
    ensures PutProperties(heads, names, c, item).Keys == heads.Keys + set n | n in names
    ensures forall n :: n in names ==> PutProperties(heads, names, c, item)[n] == c.propertyValue(n, item)
    ensures forall n :: n in heads && n !in names ==> PutProperties(heads, names, c, item)[n] == heads[n]
    decreases |names|
  {
    if names != [] {
      var front := names[..|names| - 1];
      assert names == front + [names[|names| - 1]];
      PutPropertiesContents(heads, front, c, item);
    }
  }

  /** The heads of a new bucket, as the source writes them. */
  lemma HeadsOfContents<T>(c: Condition<T>, k: string, item: T)
    ensures HeadsOf(c, k, item).Keys == {c.groupName} + set n | n in c.propertyNames
    ensures forall n :: n in c.propertyNames ==> HeadsOf(c, k, item)[n] == c.propertyValue(n, item)
    ensures c.groupName !in c.propertyNames ==> HeadsOf(c, k, item)[c.groupName] == k
  {
    PutPropertiesContents(map[c.groupName := k], c.propertyNames, c, item);
  }

  /** A bucket: its alias, its head values and the items added to it. */
  class GroupItem<T> {
    const alias: Ref<string>
    var heads: map<string, string>
    var children: seq<T>

    constructor (alias: Ref<string>)
      ensures this.alias == alias && heads == map[] && children == []
    {
      this.alias := alias;
      heads := map[];
      children := [];
    }

    method Put(name: string, value: string)
      modifies this
      ensures heads == old(heads)[name := value] && children == old(children)
    {
      heads := heads[name := value];
    }

    method AddChild(item: T)
      modifies this
      ensures children == old(children) + [item] && heads == old(heads)
    {
      children := children + [item];
    }

    function AsList(): seq<T>
      reads this
    {
      children
    }
  }

  /**
   * Bucket `b` is the one for key `k` after `items` were added under
   * condition `c`: it holds exactly the members of `k`, and the heads
   * written from the first of them.
   */
  ghost predicate Holds<T>(c: Condition<T>, items: seq<T>, b: GroupItem<T>, k: string)
    reads b
  {
    && b.alias == c.alias
    && b.children == Members(items, c.groupValue, k)
    && b.children != []
    && b.heads == HeadsOf(c, k, b.children[0])
  }

  /** A bucket of another key is not affected by a new item. */
  lemma HoldsAfterOther<T>(c: Condition<T>, items: seq<T>, item: T, b: GroupItem<T>, k: string)
    requires Holds(c, items, b, k) && c.groupValue(item) != k
    ensures Holds(c, items + [item], b, k)
  {
    FilterSnoc(items, item, HasKey(c.groupValue, k));
  }

  /** The bucket of the new item's key, once the item has been appended to it. */
  lemma HoldsAfterJoin<T>(c: Condition<T>, items: seq<T>, item: T, b: GroupItem<T>)
    requires b.alias == c.alias
    requires b.children == Members(items, c.groupValue, c.groupValue(item)) + [item]
    requires b.heads == HeadsOf(c, c.groupValue(item), b.children[0])
    ensures Holds(c, items + [item], b, c.groupValue(item))
  {
    FilterSnoc(items, item, HasKey(c.groupValue, c.groupValue(item)));
  }

  /**
   * The key map and the bucket list agree: the `i`-th bucket is registered
   * under the `i`-th key, the map has no other key, and no bucket is listed
   * twice.
   */
  ghost predicate Registered<T>(m: map<string, GroupItem<T>>, bs: seq<GroupItem<T>>, ks: seq<string>)
  {
    && (forall i, j :: 0 <= i < j < |bs| ==> bs[i] != bs[j])
    && |bs| == |ks|
    && (forall k :: k in m ==> k in ks)
    && (forall i :: 0 <= i < |bs| ==> ks[i] in m && m[ks[i]] == bs[i])
  }

  /** Registering a new bucket under a new key keeps map and list in agreement. */
  lemma RegisteredAfterCreate<T>(m: map<string, GroupItem<T>>, bs: seq<GroupItem<T>>, ks: seq<string>, k: string, g: GroupItem<T>)
    requires Registered(m, bs, ks) && k !in m && g !in bs
    ensures k !in ks
    ensures Registered(m[k := g], bs + [g], ks + [k])
  {
  }

  class GroupImpl<T> {
    const condition: Condition<T>
    var groupsMap: map<string, GroupItem<T>>
    /** The LinkedList of buckets that GroupImpl extends. */
    var buckets: seq<GroupItem<T>>
    /** The items added so far, in order. */
    ghost var added: seq<T>
    ghost var Repr: set<object>

    ghost function Keys(): seq<string>
      reads this
    {
      FirstSeen(added, condition.groupValue)
    }

    /**
     * The map and the list name the same buckets, one per distinct key,
     * listed in the order the keys were first seen.
     */
    ghost predicate Valid()
      reads this, Repr
    {
      && this in Repr
      && (forall i :: 0 <= i < |buckets| ==> buckets[i] in Repr)
      && Registered(groupsMap, buckets, Keys())
      && (forall i :: 0 <= i < |buckets| ==> Holds(condition, added, buckets[i], Keys()[i]))
    }

    constructor (condition: Condition<T>)
      ensures Valid() && fresh(Repr)
      ensures this.condition == condition && added == [] && buckets == [] && groupsMap == map[]
    {
      this.condition := condition;
      groupsMap := map[];
      buckets := [];
      added := [];
      Repr := {this};
    }

    /** `add(item)`: the item joins the bucket of its key, created first if the key is new. */
    method Add(item: T)
      requires Valid()
      modifies Repr
      ensures Valid() && fresh(Repr - old(Repr))
      ensures added == old(added) + [item]
      ensures condition.groupValue(item) in groupsMap
      ensures groupsMap[condition.groupValue(item)].children ==
        old(if condition.groupValue(item) in groupsMap then groupsMap[condition.groupValue(item)].children else []) + [item]
      ensures old(condition.groupValue(item) in groupsMap) ==> buckets == old(buckets) && groupsMap == old(groupsMap)
      ensures old(condition.groupValue(item) !in groupsMap) ==>
        buckets[..|buckets| - 1] == old(buckets) && |buckets| == old(|buckets|) + 1
    {
      var k := condition.groupValue(item);
      ghost var oldAdded, oldKeys, oldMap, oldBuckets := added, Keys(), groupsMap, buckets;
      ghost var existed := k in groupsMap;
      var groupItem := FindOrCreate(item, k);
      ghost var index: int;
      ghost var newKeys: seq<string>;
      if existed {
        index := IndexOf(oldKeys, k);
        newKeys := oldKeys;
      } else {
        RegisteredAfterCreate(oldMap, oldBuckets, oldKeys, k, groupItem);
        FirstSeenContents(oldAdded, condition.groupValue);
        UnseenKeyHasNoMembers(oldAdded, condition.groupValue, k);
        index := |oldKeys|;
        newKeys := oldKeys + [k];
      }
      assert Registered(groupsMap, buckets, newKeys);
      assert groupItem == buckets[index];
      assert groupItem.children == Members(oldAdded, condition.groupValue, k);
      assert groupItem.heads == HeadsOf(condition, k, (Members(oldAdded, condition.groupValue, k) + [item])[0]);
      FirstSeenSnoc(oldAdded, item, condition.groupValue);
      added := added + [item];
      assert Keys() == newKeys;
      groupItem.AddChild(item);
      HoldsAfterJoin(condition, oldAdded, item, groupItem);
      forall i | 0 <= i < |buckets| && i != index
        ensures Holds(condition, added, buckets[i], newKeys[i])
      {
        HoldsAfterOther(condition, oldAdded, item, buckets[i], oldKeys[i]);
      }
    }

    /** `findOrCreate(item, key)`: the bucket of `key`, created when the map has none. */
    method FindOrCreate(item: T, k: string) returns (groupItem: GroupItem<T>)
      requires Valid() && k == condition.groupValue(item)
      modifies this
      ensures k in old(groupsMap) ==> groupItem == old(groupsMap[k]) && unchanged(this)
      ensures k !in old(groupsMap) ==> NewBucket(groupItem, item, k)
      ensures groupItem in Repr && groupsMap[k] == groupItem
    {
      if k in groupsMap {
        groupItem := groupsMap[k];
        return;
      }
      groupItem := Create(item, k);
    }

    /** What `create` leaves behind: one fresh bucket with its heads, in the map and at the end of the list. */
    twostate predicate NewBucket(new groupItem: GroupItem<T>, item: T, k: string)
      reads this, groupItem
    {
      && fresh(groupItem)
      && groupItem.children == [] && groupItem.alias == condition.alias
      && groupItem.heads == HeadsOf(condition, k, item)
      && groupsMap == old(groupsMap)[k := groupItem]
      && buckets == old(buckets) + [groupItem]
      && Repr == old(Repr) + {groupItem}
      && added == old(added)
    }

    /** `create(item, key)`: a new bucket holding the condition's alias and heads, registered in map and list. */
    method Create(item: T, k: string) returns (groupItem: GroupItem<T>)
      requires k !in groupsMap
      modifies this
      ensures NewBucket(groupItem, item, k)
    {
      groupItem := new GroupItem(condition.alias);
      groupItem.Put(condition.groupName, k);
      var names := condition.propertyNames;
      for j := 0 to |names|
        modifies groupItem
        invariant groupItem.children == []
        invariant groupItem.heads == PutProperties(map[condition.groupName := k], names[..j], condition, item)
      {
        assert names[..j + 1][..j] == names[..j];
        groupItem.Put(names[j], condition.propertyValue(names[j], item));
      }
      assert names[..|names|] == names;
      groupsMap := groupsMap[k := groupItem];
      buckets := buckets + [groupItem];
      Repr := Repr + {groupItem};
    }

    /** `keySet()`: exactly the distinct keys of the items added so far. */
    function KeySet(): (ks: set<string>)
      requires Valid()
      reads this, Repr
      ensures forall k :: k in ks ==> exists i :: 0 <= i < |added| && condition.groupValue(added[i]) == k
      ensures forall i :: 0 <= i < |added| ==> condition.groupValue(added[i]) in ks
    {
      FirstSeenContents(added, condition.groupValue);
      groupsMap.Keys
    }

    /** The bucket registered for `k`. */
    function FindGroup(k: string): (r: Ref<GroupItem<T>>)
      requires Valid()
      reads this, Repr
      ensures r.Null? <==> k !in Keys()
      ensures r.Obj? ==> r.value in Repr && r.value.children == Members(added, condition.groupValue, k)
    {
      if k in groupsMap then
        assert exists i :: 0 <= i < |buckets| && Keys()[i] == k;
        Obj(groupsMap[k])
      else Null
    }

    /** `find(key)`: the items whose key is `k`; the empty list when there are none. */
    function Find(k: string): (r: seq<T>)
      requires Valid()
      reads this, Repr
      ensures r == Members(added, condition.groupValue, k)
      ensures k !in Keys() ==> r == []
    {
      if k in groupsMap then
        assert exists i :: 0 <= i < |buckets| && Keys()[i] == k;
        groupsMap[k].AsList()
      else
        UnseenKeyHasNoMembers(added, condition.groupValue, k);
        []
    }

    /** `findGroup(Object)`: the lookup on `key.toString()`, which dereferences the key. */
    function FindGroupByObject<O>(key: Ref<O>, toString: O -> string): (r: Result<Ref<GroupItem<T>>>)
      requires Valid()
      reads this, Repr
      ensures key.Null? ==> r == Threw(NullPointer)
      ensures key.Obj? ==> r == Ok(FindGroup(toString(key.value)))
    {
      if key.Null? then Threw(NullPointer) else Ok(FindGroup(toString(key.value)))
    }

    /** `find(Object)`: the lookup on `key.toString()`, which dereferences the key. */
    function FindByObject<O>(key: Ref<O>, toString: O -> string): (r: Result<seq<T>>)
      requires Valid()
      reads this, Repr
      ensures key.Null? ==> r == Threw(NullPointer)
      ensures key.Obj? ==> r == Ok(Members(added, condition.groupValue, toString(key.value)))
    {
      if key.Null? then Threw(NullPointer) else Ok(Find(toString(key.value)))
    }

    /** `findAll()`: the buckets' items, bucket after bucket; a permutation of the items added. */
    method FindAll() returns (all: seq<T>)
      requires Valid()
      ensures all == Partition(added, condition.groupValue, Keys())
      ensures multiset(all) == multiset(added)
    {
      ghost var ks := Keys();
      ghost var partition := Partition(added, condition.groupValue, ks);
      assert |buckets| == |ks|;
      assert forall i :: 0 <= i < |buckets| ==> buckets[i].children == Members(added, condition.groupValue, ks[i]);
      all := [];
      for i := 0 to |buckets|
        invariant partition == all + Partition(added, condition.groupValue, ks[i..])
      {
        assert ks[i..][1..] == ks[i + 1..];
        all := all + buckets[i].AsList();
      }
      assert ks[|buckets|..] == [];
      PartitionIsPermutation(added, condition.groupValue);
    }

    /** `getSize()`: the number of items added. */
    method GetSize() returns (size: int)
      requires Valid()
      ensures size == |added|
    {
      var all := FindAll();
      assert |all| == |multiset(all)| == |multiset(added)| == |added|;
      size := |all|;
    }

    /** `isLeaf()`: a GroupImpl holds buckets, never items directly. */
    function IsLeaf(): (leaf: bool)
      ensures !leaf
    {
      false
    }

    /** `getHeads()`: a GroupImpl has no heads of its own. */
    function GetHeads(): (heads: set<string>)
      ensures heads == {}
    {
      {}
    }

    /** `getHeadValue(key)`: every head value of a GroupImpl is empty. */
    function GetHeadValue(k: string): (value: string)
      ensures value == ""
    {
      ""
    }
  }
}
