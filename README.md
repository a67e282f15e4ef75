# lambdaj collections and grouping, modelled in Dafny

lambdaj is a Java library of static helpers for working on collections
without explicit loops. This project models its core:

- The collection algorithms of `Lambda`: `collect`, `select`, `selectFirst`,
  `selectUnique`, `selectDistinct`, `aggregate`, `convert`, `extract`,
  `extractString`, `map`, `index`, `sort` and `join`.
- The grouping engine:
  - `GroupImpl`, the buckets of one grouping level, kept in a key-to-bucket
    `HashMap` and a list of buckets in creation order;
  - `Groups.group`, which nests those levels, one per condition;
  - the condition builders `GroupCondition` and `GroupConditions`.
- `LambdaIterable`, the fluent wrapper.
- `DefaultStringConverter`.

The modules follow the Java classes:

| module | file | models |
|---|---|---|
| `JavaLang` | `java_lang.dfy` | `null`, a parameter declared `Object`, the exceptions thrown, `Aggregator` |
| `Sequences` | `sequences.dfy` | order-keeping filter and map, the reference definitions for the list-building loops |
| `StringConverter` | `string_converter.dfy` | `DefaultStringConverter` |
| `Lambda` | `lambda.dfy` | the static helpers of `Lambda.java` |
| `Grouping` | `group_impl.dfy` | `GroupImpl` and its `GroupItem` buckets, as classes with mutable fields |
| `Groups` | `groups.dfy` | `Groups.group` and `by`, producing the nested groups as a value |
| `Conditions` | `conditions.dfy` | the `GroupCondition` class |
| `ConditionLists` | `condition_lists.dfy` | the `GroupConditions` list and the `StringGroupCondition` objects it holds |
| `LambdaIterable` | `lambda_iterable.dfy` | the `LambdaIterable` wrapper |

Abstractions used throughout:

- A Java reference is `Ref<T>`, either `Null` or `Obj(value)`.
- A parameter declared `Object iterable` is a `Ref<Instance<T>>`. The object is
  either an Iterable with its items in iteration order, or any other object,
  known only by its `toString()`.
- A thrown exception is a `Threw(e)` or `Raised(e)` result.
- A hamcrest `Matcher` is a predicate `T -> bool`.
- A `Converter` and an `on(...)` argument are functions `T -> K`.
- A `Comparator` is a function `(K, K) -> int` that is required to be total.
- An `Aggregator` is a neutral `emptyItem` and a binary operation.

Each Java method that builds a result in a loop is a Dafny `method` with the same
loop. Most are proved against a reference function (`Filter`, `Mapped`,
`Flattened`, `FoldFrom`, `LastWins`, `Partition`, `Grouped`), and what the source
promises is proved about that function as lemmas. There are two exceptions:
- `Lambda.SelectDistinctBy` has no reference function. Its `ensures` state the
  promise directly, proved by the loop invariants.
- `Lambda.Sort` copies the items in a loop and then relies on the contract of
  `InsertionSorted` for the order. `Collections.sort` is not modelled as a loop.

`GroupImpl` is a class. Its buckets, key map and added items sit under an invariant
(`Valid`):

- one bucket per distinct key;
- buckets listed in first-seen-key order;
- the key map and the bucket list in one-to-one correspondence;
- each bucket holding exactly the items with its key.

The version-1.10 `StringGroupCondition` is not part of this model. The list builder
therefore records, on each condition object, the calls it receives.

## Model

| member | source | states |
|---|---|---|
| `StringConverter.Convert` | tags/lambdaj-1.10/src/main/java/ch/lambdaj/function/convert/DefaultStringConverter.java:12-14 | null converts to `""`, anything else to its `toString()`; the result is never null |
| `Sequences.FilterContents` | tags/lambdaj-1.10/src/main/java/ch/lambdaj/Lambda.java:185-190 | the selected items are exactly the matching items, each as many times as it occurs |
| `Sequences.FilterPartition` | trunk/src/main/java/ch/lambdaj/collection/LambdaIterable.java:63-65 | `doFilter` and `doRemove` split the items: together they hold every item exactly once, and no item is in both |
| `Sequences.Mapped` | tags/lambdaj-1.10/src/main/java/ch/lambdaj/Lambda.java:765-770 | a converted list has one entry per item, the i-th being the converted i-th item |
| `Lambda.Flattened` | tags/lambdaj-1.10/src/main/java/ch/lambdaj/Lambda.java:105-109 | flattening leaves no Iterable and no Map in the result |
| `Lambda.Expanded` | tags/lambdaj-1.10/src/main/java/ch/lambdaj/Lambda.java:106-108 | what one item contributes to `collect` holds no Iterable and no Map |
| `Lambda.FlattenedAppend` | tags/lambdaj-1.10/src/main/java/ch/lambdaj/Lambda.java:105-109 | flattening distributes over concatenation |
| `Lambda.FlattenedOfElements` | tags/lambdaj-1.10/src/main/java/ch/lambdaj/Lambda.java:108 | a list of plain elements flattens to itself |
| `Lambda.Collect` | tags/lambdaj-1.10/src/main/java/ch/lambdaj/Lambda.java:101-111 | `collect` rejects a value that is neither Iterable nor Map with IllegalArgumentException; a top-level Map fails the cast with ClassCastException; an Iterable is flattened, and the result holds only elements |
| `Lambda.CollectKeepsOrder` | tags/lambdaj-1.10/src/main/java/ch/lambdaj/Lambda.java:105-109 | the collected items of a concatenation are those of the first part followed by those of the second |
| `Lambda.CollectIsIdempotent` | tags/lambdaj-1.10/src/main/java/ch/lambdaj/Lambda.java:101-111 | collecting an already collected list returns it unchanged |
| `Lambda.CollectRejectsTopLevelMap` | tags/lambdaj-1.10/src/main/java/ch/lambdaj/Lambda.java:102-105 | a Map passed directly throws ClassCastException, while the same Map nested in a list is collected by its values |
| `Lambda.CollectIntended` | tags/lambdaj-1.10/src/main/java/ch/lambdaj/Lambda.java:95-111 | the documented `collect`, where Maps count as Iterables of their values; its result holds only elements |
| `Lambda.CollectIntendedTreatsMapsAsIterables` | tags/lambdaj-1.10/src/main/java/ch/lambdaj/Lambda.java:95-111 | in the documented `collect` a Map behaves like the list of its values, top-level or nested; on all other input it agrees with the code |
| `Lambda.CollectOn` | tags/lambdaj-1.10/src/main/java/ch/lambdaj/Lambda.java:131-133 | `collect(iterable, argument)` flattens the argument values of the items; null gives an empty list and a non-Iterable a ClassCastException |
| `Lambda.InsertSorted` | tags/lambdaj-1.10/src/main/java/ch/lambdaj/Lambda.java:161 | inserting into a sorted list keeps it sorted and adds exactly that one item |
| `Lambda.InsertionSorted` | tags/lambdaj-1.10/src/main/java/ch/lambdaj/Lambda.java:161 | the sorted list is ordered on the extracted values and is a permutation of its input |
| `Lambda.Sort` | tags/lambdaj-1.10/src/main/java/ch/lambdaj/Lambda.java:146-163 | `sort` returns a permutation of the items ordered by the comparator on the argument values; null throws NullPointerException and a non-Iterable ClassCastException |
| `Lambda.Select` | tags/lambdaj-1.10/src/main/java/ch/lambdaj/Lambda.java:175-190 | `select`/`filter` give the matching items in their original order, and an empty list for null |
| `Lambda.SelectObject` | tags/lambdaj-1.10/src/main/java/ch/lambdaj/Lambda.java:199-201 | `select(Object, matcher)`: a non-Iterable fails the cast, otherwise as `select` |
| `Lambda.SelectFirst` | tags/lambdaj-1.10/src/main/java/ch/lambdaj/Lambda.java:253-257 | `selectFirst` returns the earliest matching item, or null when nothing matches or the iterable is null |
| `Lambda.SelectFirstObject` | tags/lambdaj-1.10/src/main/java/ch/lambdaj/Lambda.java:242-244 | `selectFirst(Object, matcher)`: a non-Iterable fails the cast; otherwise the earliest match, or null |
| `Lambda.SelectUniqueObject` | tags/lambdaj-1.10/src/main/java/ch/lambdaj/Lambda.java:210-212 | `selectUnique(Object, matcher)`: a non-Iterable fails the cast; otherwise as `selectUnique`, its error included |
| `Lambda.SelectUnique` | tags/lambdaj-1.10/src/main/java/ch/lambdaj/Lambda.java:222-234 | `selectUnique` with its two loops computes the code's behaviour; a null iterable gives null |
| `Lambda.SelectUniqueCases` | tags/lambdaj-1.10/src/main/java/ch/lambdaj/Lambda.java:222-234 | no non-null match gives null; a single match is returned; two non-null matches throw "Not unique item" |
| `Lambda.SelectUniqueDependsOnOrder` | tags/lambdaj-1.10/src/main/java/ch/lambdaj/Lambda.java:225-228 | a matching null does not end the first loop: `[null, a]` returns `a` but `[a, null]` throws |
| `Lambda.FilterOfPermutation` | tags/lambdaj-1.10/src/main/java/ch/lambdaj/Lambda.java:185-190 | selecting from two orderings of the same items gives two orderings of the same selection |
| `Lambda.AnyMatchFilter` | tags/lambdaj-1.10/src/main/java/ch/lambdaj/Lambda.java:225-232 | some item matches exactly when selecting keeps something |
| `Lambda.SelectUniqueAgreesWithoutMatchingNulls` | tags/lambdaj-1.10/src/main/java/ch/lambdaj/Lambda.java:203-234 | when the matcher accepts no null item, the code and the documented behaviour agree on every input |
| `Lambda.SelectUniqueIntendedIgnoresOrder` | tags/lambdaj-1.10/src/main/java/ch/lambdaj/Lambda.java:203-209 | the documented `selectUnique` depends only on which items there are, not on their order |
| `Lambda.SelectDistinct` | tags/lambdaj-1.10/src/main/java/ch/lambdaj/Lambda.java:307-312 | `selectDistinct` without a comparator returns exactly the set of items; null gives an empty set |
| `Lambda.SelectDistinctBy` | tags/lambdaj-1.10/src/main/java/ch/lambdaj/Lambda.java:307-312 | with a comparator, every kept item is an input item, every input item compares equal to a kept one, and no two kept items compare equal |
| `Lambda.FoldAppend` | tags/lambdaj-1.10/src/main/java/ch/lambdaj/Lambda.java:367-370 | folding a concatenation folds the second part from where the first ended |
| `Lambda.FoldFromMonoid` | tags/lambdaj-1.10/src/main/java/ch/lambdaj/Lambda.java:367-370 | for an associative aggregator with a neutral empty item, folding from any start equals combining the start with the aggregate |
| `Lambda.AggregatedAppend` | tags/lambdaj-1.10/src/main/java/ch/lambdaj/Lambda.java:366-371 | for such an aggregator, the aggregate of a concatenation combines the aggregates of its parts |
| `Lambda.Aggregate` | tags/lambdaj-1.10/src/main/java/ch/lambdaj/Lambda.java:366-371 | `aggregate` is the left fold of the items from `emptyItem()`; null gives `emptyItem()` |
| `Lambda.AggregateOn` | tags/lambdaj-1.10/src/main/java/ch/lambdaj/Lambda.java:383-386 | `aggregate(iterable, aggregator, argument)` throws "is not an iterable" for anything but an Iterable, null included, and otherwise folds the argument values |
| `Lambda.Join` | tags/lambdaj-1.10/src/main/java/ch/lambdaj/Lambda.java:750-752 | `join(o, separator)` gives `""` for null and `toString()` for a non-Iterable, and folds an Iterable with Concat; an empty Iterable gives Concat's empty item |
| `Lambda.JoinWithCommas` | tags/lambdaj-1.10/src/main/java/ch/lambdaj/Lambda.java:738-740 | `join(o)` is `join` with the separator `", "` in each of the three cases |
| `Lambda.JoinOfNothing` | tags/lambdaj-1.10/src/main/java/ch/lambdaj/Lambda.java:742-752 | null and an empty Iterable join to the empty String, as documented, when Concat starts from `""` |
| `Lambda.JoinOfConcatenation` | tags/lambdaj-1.10/src/main/java/ch/lambdaj/Lambda.java:750-752 | when Concat is associative with a neutral empty item, joining two lists joins their joins |
| `Lambda.Convert` | tags/lambdaj-1.10/src/main/java/ch/lambdaj/Lambda.java:765-770 | `convert` returns one converted value per item, in order; null gives an empty list; a non-Iterable fails the cast |
| `Lambda.Extract` | tags/lambdaj-1.10/src/main/java/ch/lambdaj/Lambda.java:779-781 | `extract` returns the argument value of every item, in order |
| `Lambda.ExtractString` | tags/lambdaj-1.10/src/main/java/ch/lambdaj/Lambda.java:789-791 | `extractString` returns one string per item, in order, `""` for a null item; null gives an empty list |
| `Lambda.LastWinsIndexes` | tags/lambdaj-1.10/src/main/java/ch/lambdaj/Lambda.java:811-816 | the keys of the map are exactly the converted values, and for a duplicate key the later item overwrites the earlier |
| `Lambda.MapBy` | tags/lambdaj-1.10/src/main/java/ch/lambdaj/Lambda.java:811-816 | `map` holds every item's converted value as a key, each mapped to the last item with that value; null gives an empty map |
| `Lambda.Index` | tags/lambdaj-1.10/src/main/java/ch/lambdaj/Lambda.java:825-827 | `index` is `map` keyed on the argument value, with the same key and last-wins properties |
| `Grouping.FirstSeenContents` | tags/lambdaj-1.10/src/main/java/ch/lambdaj/group/GroupImpl.java:33-46 | the bucket keys are distinct, each is the key of some added item, and every added item's key is among them |
| `Grouping.UnseenKeyHasNoMembers` | tags/lambdaj-1.10/src/main/java/ch/lambdaj/group/GroupImpl.java:66-69 | a key no item has selects no item |
| `Grouping.SeenKeyHasMembers` | tags/lambdaj-1.10/src/main/java/ch/lambdaj/group/GroupImpl.java:38-46 | a bucket is created only for a key some item has, so no bucket is empty |
| `Grouping.PartitionIsPermutation` | tags/lambdaj-1.10/src/main/java/ch/lambdaj/group/GroupImpl.java:75-79 | the bucket contents, concatenated in bucket order, are a permutation of the items added |
| `Grouping.PutPropertiesContents` | tags/lambdaj-1.10/src/main/java/ch/lambdaj/group/GroupImpl.java:41-42 | each additional property is put with its value for the first item; other heads are kept |
| `Grouping.HeadsOfContents` | tags/lambdaj-1.10/src/main/java/ch/lambdaj/group/GroupImpl.java:39-42 | a new bucket's heads are the group name plus the additional properties; the group name holds the key unless a property of the same name overwrites it |
| `Grouping.GroupItem.constructor` | tags/lambdaj-1.10/src/main/java/ch/lambdaj/group/GroupImpl.java:39 | a new bucket has the condition's alias, no heads and no children |
| `Grouping.GroupItem.Put` | tags/lambdaj-1.10/src/main/java/ch/lambdaj/group/GroupImpl.java:40-42 | `put` sets one head and leaves the children alone |
| `Grouping.GroupItem.AddChild` | tags/lambdaj-1.10/src/main/java/ch/lambdaj/group/GroupImpl.java:30 | `addChild` appends the item and leaves the heads alone |
| `Grouping.GroupImpl.constructor` | tags/lambdaj-1.10/src/main/java/ch/lambdaj/group/GroupImpl.java:24-26 | a new group keeps its condition and starts with no bucket |
| `Grouping.GroupImpl.Add` | tags/lambdaj-1.10/src/main/java/ch/lambdaj/group/GroupImpl.java:28-31 | after `add`, the item ends the children of the bucket for its key; a bucket is appended only when the key was absent; the bucket invariant is kept |
| `Grouping.GroupImpl.FindOrCreate` | tags/lambdaj-1.10/src/main/java/ch/lambdaj/group/GroupImpl.java:33-36 | an existing bucket is returned with nothing changed; otherwise a new one is created |
| `Grouping.GroupImpl.Create` | tags/lambdaj-1.10/src/main/java/ch/lambdaj/group/GroupImpl.java:38-46 | `create` makes a fresh bucket with the alias and heads of the condition, registers it under the key and appends it to the bucket list |
| `Grouping.GroupImpl.KeySet` | tags/lambdaj-1.10/src/main/java/ch/lambdaj/group/GroupImpl.java:48-50 | `keySet` is exactly the set of group values of the items added |
| `Grouping.GroupImpl.FindGroup` | tags/lambdaj-1.10/src/main/java/ch/lambdaj/group/GroupImpl.java:52-55 | `findGroup` is null exactly for a key no item has; otherwise its bucket's items are those with the key |
| `Grouping.GroupImpl.Find` | tags/lambdaj-1.10/src/main/java/ch/lambdaj/group/GroupImpl.java:66-69 | `find` returns the items with the key, in order of addition, and an empty list for an absent key |
| `Grouping.GroupImpl.FindGroupByObject` | tags/lambdaj-1.10/src/main/java/ch/lambdaj/group/GroupImpl.java:57-59 | `findGroup(Object)` is `findGroup` of `key.toString()`; a null key throws NullPointerException |
| `Grouping.GroupImpl.FindByObject` | tags/lambdaj-1.10/src/main/java/ch/lambdaj/group/GroupImpl.java:71-73 | `find(Object)` is `find` of `key.toString()`; a null key throws NullPointerException |
| `Grouping.GroupImpl.FindAll` | tags/lambdaj-1.10/src/main/java/ch/lambdaj/group/GroupImpl.java:75-79 | `findAll` concatenates the buckets in bucket order, which is a permutation of the items added |
| `Grouping.GroupImpl.GetSize` | tags/lambdaj-1.10/src/main/java/ch/lambdaj/group/GroupImpl.java:81-83 | `getSize` is the number of items added |
| `Grouping.GroupImpl.IsLeaf` | tags/lambdaj-1.10/src/main/java/ch/lambdaj/group/GroupImpl.java:85-87 | a group is never a leaf |
| `Grouping.GroupImpl.GetHeads` | tags/lambdaj-1.10/src/main/java/ch/lambdaj/group/GroupImpl.java:89-91 | a group has no heads |
| `Grouping.GroupImpl.GetHeadValue` | tags/lambdaj-1.10/src/main/java/ch/lambdaj/group/GroupImpl.java:93-95 | every head value of a group is `""` |
| `Groups.Grouped` | trunk/src/main/java/ch/lambdaj/group/Groups.java:32-44 | the nested groups have one bucket per distinct key of the first condition, in first-seen order, each built from the items with that key |
| `Groups.GroupedKeepsItems` | trunk/src/main/java/ch/lambdaj/group/Groups.java:35-41 | no item is lost or duplicated: all the leaves together are a permutation of the items |
| `Groups.BucketsKeepItems` | trunk/src/main/java/ch/lambdaj/group/Groups.java:40 | the leaves of a run of buckets are a permutation of the items with their keys |
| `Groups.GroupedDepth` | trunk/src/main/java/ch/lambdaj/group/Groups.java:37-41 | the nesting depth equals the number of conditions |
| `Groups.GroupedBuckets` | trunk/src/main/java/ch/lambdaj/group/Groups.java:33-41 | the bucket keys are distinct; every item's key has a bucket; each bucket holds exactly the items with its key, directly at the last level; aliases and heads come from the first condition |
| `Groups.Group` | trunk/src/main/java/ch/lambdaj/group/Groups.java:32-44 | no condition throws ArrayIndexOutOfBoundsException; a null iterable throws NullPointerException; otherwise the result is the nested grouping |
| `Groups.Level` | trunk/src/main/java/ch/lambdaj/group/Groups.java:33-35 | the top level is a group on `conditions[0]` holding every item once, in order |
| `Groups.Regroup` | trunk/src/main/java/ch/lambdaj/group/Groups.java:37-41 | each bucket's children are replaced by the grouping of that bucket with the remaining conditions |
| `Groups.RegroupBucket` | trunk/src/main/java/ch/lambdaj/group/Groups.java:38-40 | one bucket, under the key the map registers it with, with its items grouped again by the remaining conditions or kept as they are at the last level |
| `Groups.GroupByCollection` | trunk/src/main/java/ch/lambdaj/group/Groups.java:21-23 | the Collection overload behaves as the array overload |
| `Groups.GroupByNames` | trunk/src/main/java/ch/lambdaj/group/Groups.java:25-30 | the `String...` overload groups by one condition per grouper, in the same order |
| `Groups.By` | trunk/src/main/java/ch/lambdaj/group/Groups.java:17-19 | `by(argument)` makes a condition with no alias and no additional property, whose key for an item is the string of the item's argument value |
| `Conditions.GroupCondition.constructor` | trunk/src/main/java/ch/lambdaj/group/GroupCondition.java:9-13 | the one-argument constructor stores `groupBy`, no alias and no additional property |
| `Conditions.GroupCondition.WithAlias` | trunk/src/main/java/ch/lambdaj/group/GroupCondition.java:15-18 | the two-argument constructor stores `groupBy` and the alias unchanged |
| `Conditions.GroupCondition.GetGroupBy` | trunk/src/main/java/ch/lambdaj/group/GroupCondition.java:20-22 | `getGroupBy` is the property given at construction |
| `Conditions.GroupCondition.GetAlias` | trunk/src/main/java/ch/lambdaj/group/GroupCondition.java:24-26 | `getAlias` is the current alias, null unless one was given or set |
| `Conditions.GroupCondition.GetAdditionalProperties` | trunk/src/main/java/ch/lambdaj/group/GroupCondition.java:42-44 | `getAdditionalProperties` is the current name-to-alias map |
| `Conditions.GroupCondition.SetAlias` | trunk/src/main/java/ch/lambdaj/group/GroupCondition.java:28-30 | `setAlias` changes the alias only |
| `Conditions.GroupCondition.AddProperty` | trunk/src/main/java/ch/lambdaj/group/GroupCondition.java:32-35 | `addProperty(name)` maps the name to itself and overwrites an earlier entry; the map gains at most one key; it returns the same object |
| `Conditions.GroupCondition.AddPropertyAs` | trunk/src/main/java/ch/lambdaj/group/GroupCondition.java:37-40 | `addProperty(name, alias)` maps the name to the alias, with the same overwriting, growth and chaining |
| `Conditions.PutGrowsByAtMostOne` | trunk/src/main/java/ch/lambdaj/group/GroupCondition.java:32-40 | a `put` adds its key, and grows the map by one key exactly when the key was absent |
| `ConditionLists.GroupConditions.constructor` | tags/lambdaj-1.10/src/main/java/ch/lambdaj/group/GroupConditions.java:12 | a new list of conditions is empty |
| `ConditionLists.GroupConditions.By` | tags/lambdaj-1.10/src/main/java/ch/lambdaj/group/GroupConditions.java:16-18 | `by` appends exactly one new condition for the property; the earlier ones are unchanged |
| `ConditionLists.GroupConditions.As` | tags/lambdaj-1.10/src/main/java/ch/lambdaj/group/GroupConditions.java:20-22 | `as` is passed to the last condition only; on an empty list it throws NoSuchElementException |
| `ConditionLists.GroupConditions.Head` | tags/lambdaj-1.10/src/main/java/ch/lambdaj/group/GroupConditions.java:24-26 | `head(property)` is passed to the last condition only; on an empty list it throws NoSuchElementException |
| `ConditionLists.GroupConditions.HeadAs` | tags/lambdaj-1.10/src/main/java/ch/lambdaj/group/GroupConditions.java:28-30 | `head(property, alias)` is passed to the last condition as `head(alias, property)`; on an empty list it throws NoSuchElementException |
| `ConditionLists.StringGroupCondition.constructor` | tags/lambdaj-1.10/src/main/java/ch/lambdaj/group/GroupConditions.java:17 | a new condition keeps its property and has received no call |
| `LambdaIterable.AsObject` | trunk/src/main/java/ch/lambdaj/collection/LambdaIterable.java:76-104 | the wrapped Iterable passed as `Object` is null exactly when it is, and otherwise an Iterable of the same items |
| `LambdaIterable.Replaced` | trunk/src/main/java/ch/lambdaj/collection/LambdaIterable.java:118 | each item that matches is replaced by `replacer`; the others stay in place |
| `LambdaIterable.LambdaIterable.constructor` | trunk/src/main/java/ch/lambdaj/collection/LambdaIterable.java:22-24 | the wrapper holds the given Iterable |
| `LambdaIterable.LambdaIterable.DoFilter` | trunk/src/main/java/ch/lambdaj/collection/LambdaIterable.java:50-52 | `doFilter` is `select` with the matcher |
| `LambdaIterable.LambdaIterable.DoRemove` | trunk/src/main/java/ch/lambdaj/collection/LambdaIterable.java:63-65 | `doRemove` is `select` with the negated matcher |
| `LambdaIterable.LambdaIterable.DoSort` | trunk/src/main/java/ch/lambdaj/collection/LambdaIterable.java:76-78 | `doSort` returns a permutation of the items, sorted on the argument |
| `LambdaIterable.LambdaIterable.DoConvert` | trunk/src/main/java/ch/lambdaj/collection/LambdaIterable.java:89-91 | `doConvert` keeps the length and converts item by item |
| `LambdaIterable.LambdaIterable.DoExtract` | trunk/src/main/java/ch/lambdaj/collection/LambdaIterable.java:102-104 | `doExtract` keeps the length and extracts the argument item by item |
| `LambdaIterable.LambdaIterable.DoReplace` | trunk/src/main/java/ch/lambdaj/collection/LambdaIterable.java:116-120 | `doReplace` always returns null; the list it builds, with matches replaced, is thrown away |
| `LambdaIterable.LambdaIterable.Distinct` | trunk/src/main/java/ch/lambdaj/collection/LambdaIterable.java:126-130 | `distinct()` is a set containing exactly the items |

## Left out

- The placeholder proxies and record-and-replay of `on`, `argument`, `forEach` and
  `aggregateFrom`, and the `sumFrom`, `minFrom`, `maxFrom` and `joinFrom` family.
  They rest on runtime proxies and reflection. An argument is modelled as a plain
  function instead.
- `sum`, `min`, `max`, `selectMin` and `selectMax`. `sum` is typed on `Number`.
  `min`, `max`, `selectMin` and `selectMax` are generic: they pass the `Min`,
  `Max`, `MinOnArgument` or `MaxOnArgument` aggregator, or an argument proxy, to
  `aggregate`. Those classes are not part of this model. The generic `aggregate`
  fold they all rest on is modelled.
- `selectDistinct(iterable, propertyName)`, `selectDistinctArgument` and
  `extractProperty`. They only pass a reflective comparator or extractor to
  `selectDistinct` or `convert`. Those are modelled with an abstract comparator
  or function.
- `ProxyAggregator` is not part of this model: it invokes methods reflectively.
- Hamcrest matchers, `Concat`, `ArgumentConverter`, `ArgumentComparator` and
  `PropertyComparator` are not part of this model. They appear as abstract
  predicates, functions and comparators.
- Lambda.Sort: it states a sorted permutation, not the stability of
  `Collections.sort`. An inconsistent comparator is excluded by requiring
  totality rather than modelling the exception `Collections.sort` may throw.
- Lambda.SelectDistinctBy: the TreeSet's choice of which of several items that
  compare equal it keeps is not stated, only that exactly one such item is kept.
- Iteration order of `HashSet`, `TreeSet` and `HashMap` results is not modelled.
  Those results are sets and maps.
- `GroupItem`, `StringGroupCondition` and `ArgumentGroupCondition` are not part of
  this model.
  - `GroupItem` is modelled as a bucket with an alias, a head map and a child list.
  - A grouping condition is an abstract record: key function, group name, alias,
    additional property names and values.
  - `by(argument)` assumes the condition's key is the string of the argument value.
- Grouping.GroupImpl.FindGroup: it returns the bucket itself rather than the
  `asGroup()` view, whose class is not shown.
- `subgroups()` is not modelled: it goes through `forEach` proxies.
- Groups.Group: it returns the grouping as a `Tree` value, with the nested
  levels as `Subgroups`. Java's `group` returns the top-level `GroupImpl`
  object, whose buckets were filled by `setChildren`. The model builds that
  object in `Groups.Level` and then reads it out as a value.
  - `keySet`, `findGroup`, `find` and `getSize` are therefore not offered on
    the result of `group`. They are modelled on `Grouping.GroupImpl` itself.
  - On the result of `group`, `Groups.GroupedBuckets` and
    `Groups.GroupedKeepsItems` state the equivalent facts: distinct keys, a
    bucket for every item's key, and every item kept.
- Lambda.Join: an empty Iterable joins to the empty String only under the requirement
  of `Lambda.JoinOfNothing` that Concat's empty item is `""`. Concat's class is not
  part of this model.
- The trunk `Groups.java` calls `addItem`, and the 1.10 `GroupImpl` names that
  method `add`. The model calls `Grouping.GroupImpl.Add`.
- Conditions.GroupCondition.GetAdditionalProperties: it returns the map as a value.
  In Java it is the live `HashMap`, and changes made through it are not modelled.
- A null `groupBy`, property name or property alias passed to `GroupCondition` is
  not modelled. Only the alias may be null: it is `null` in the one-argument
  constructor.
- The wrapping `filter`, `remove`, `sort`, `convert`, `extract`, `replace`,
  `distinct(argument)`, `group` and `joinFrom` methods of `LambdaIterable` are not
  modelled. They only wrap a `do...` result in a new wrapper object, or go
  through the proxies.
- Java `int` overflow of `getSize` is not modelled: sizes are unbounded.

## Findings

| source | as written | input that shows it | evidently intended | confidence | as-written member | corrected member |
|---|---|---|---|---|---|---|
| tags/lambdaj-1.10/src/main/java/ch/lambdaj/Lambda.java:101-105 | a Map passes the `instanceof` guard but is then cast to `Iterable`, so a top-level Map throws ClassCastException | `collect(map)` for any `Map` | the documentation says Maps count as Iterables of their values, as they do when nested | not executed | `Lambda.CollectRejectsTopLevelMap` | `Lambda.CollectIntendedTreatsMapsAsIterables` |
| tags/lambdaj-1.10/src/main/java/ch/lambdaj/Lambda.java:225-231 | the first loop stops on `unique == null`, so a matching null item does not end it; the result depends on the item order | `selectUnique([null, a], anything)` returns `a`, but `selectUnique([a, null], anything)` throws "Not unique item" | two matching items always throw, whatever their order | not executed | `Lambda.SelectUniqueDependsOnOrder` | `Lambda.SelectUniqueIntendedIgnoresOrder` |
