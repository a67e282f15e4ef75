/**
 * The trunk GroupCondition: a mutable description of one grouping level,
 * holding the property to group by, an optional alias for the groups it
 * produces, and the additional properties (name to alias) to copy into
 * each group's heads.
 */
module Conditions {
  import opened JavaLang

  class GroupCondition {
    const groupBy: string
    var alias: Ref<string>
    var additionalProperties: map<string, string>

    /** `new GroupCondition(groupBy)`: no alias and no additional property yet. */
    constructor (groupBy: string)
      ensures this.groupBy == groupBy
      ensures alias == Null
      ensures additionalProperties == map[]
    {
      this.groupBy := groupBy;
      this.alias := Null;
      this.additionalProperties := map[];
    }

    /** `new GroupCondition(groupBy, alias)`: both stored as given. */
    constructor WithAlias(groupBy: string, alias: Ref<string>)
      ensures this.groupBy == groupBy
      ensures this.alias == alias
      ensures additionalProperties == map[]
    {
      this.groupBy := groupBy;
      this.alias := alias;
      this.additionalProperties := map[];
    }

    /** `getGroupBy()`: the property given at construction. */
    function GetGroupBy(): (g: string)
      reads this
      ensures g == groupBy
    {
      groupBy
    }

    /** `getAlias()`: the current alias, null when none was given or set. */
    function GetAlias(): (a: Ref<string>)
      reads this
      ensures a == alias
    {
      alias
    }

    /** `getAdditionalProperties()`: the live map, name to alias. */
    function GetAdditionalProperties(): (m: map<string, string>)
      reads this
      ensures m == additionalProperties
    {
      additionalProperties
    }

    /** Replaces the alias and nothing else. */
    method SetAlias(alias: Ref<string>)
      modifies this
      ensures this.alias == alias
      ensures additionalProperties == old(additionalProperties)
    {
      this.alias := alias;
    }

    /**
     * `addProperty(name)`: the property is copied under its own name. A name
     * already present is overwritten, so the map gains at most one key.
     * Returns the condition itself so that calls chain.
     */
    method AddProperty(name: string) returns (self: GroupCondition)
      modifies this
      ensures self == this
      ensures additionalProperties == old(additionalProperties)[name := name]
      ensures additionalProperties.Keys == old(additionalProperties).Keys + {name}
      ensures |additionalProperties| <= |old(additionalProperties)| + 1
      ensures name in old(additionalProperties) ==> |additionalProperties| == |old(additionalProperties)|
      ensures alias == old(alias)
    {
      additionalProperties := additionalProperties[name := name];
      PutGrowsByAtMostOne(old(additionalProperties), name, name);
      self := this;
    }

    /**
     * `addProperty(name, alias)`: the property is copied under `alias`, with
     * the same overwriting and chaining as `AddProperty`.
     */
    method AddPropertyAs(name: string, alias: string) returns (self: GroupCondition)
      modifies this
      ensures self == this
      ensures additionalProperties == old(additionalProperties)[name := alias]
      ensures additionalProperties.Keys == old(additionalProperties).Keys + {name}
      ensures |additionalProperties| <= |old(additionalProperties)| + 1
      ensures name in old(additionalProperties) ==> |additionalProperties| == |old(additionalProperties)|
      ensures this.alias == old(this.alias)
    {
      additionalProperties := additionalProperties[name := alias];
      PutGrowsByAtMostOne(old(additionalProperties), name, alias);
      self := this;
    }
  }

  /** A `put` adds at most one key, and none when the key is already present. */
  lemma PutGrowsByAtMostOne(m: map<string, string>, k: string, v: string)
    ensures m[k := v].Keys == m.Keys + {k}
    ensures |m[k := v]| <= |m| + 1
    ensures k in m ==> |m[k := v]| == |m|
    ensures k !in m ==> |m[k := v]| == |m| + 1
  {
    if k in m {
      assert m[k := v].Keys == m.Keys;
    } else {
      assert m[k := v].Keys == m.Keys + {k};
    }
  }
}
