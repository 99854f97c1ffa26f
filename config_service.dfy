/** The configuration service: read and overwrite the entries of the
    configuration record. `setConfig` guards the write with JavaScript's `in`,
    which is also true of names the record inherits from its prototype
    (`inherited`, for a plain object the names of `Object.prototype` such as
    "toString"); writing such a name adds it as an own key. Any other unknown
    key is an error. */
module Config {
  import opened Rows

  datatype ConfigError = UnknownKey(key: string)

  datatype Outcome = Done | Failed(error: ConfigError)

  /** `CONFIG[key]` for an own key of the record, or nothing. */
  function Lookup(config: map<string, string>, key: string): (r: Option<string>)
    ensures r.Some? <==> key in config
    ensures r.Some? ==> r.value == config[key]
  {
    if key in config then Some(config[key]) else None
  }

  /** `key in CONFIG`: an own key, or a name found on the prototype chain. */
  predicate Has(config: map<string, string>, inherited: set<string>, key: string) {
    key in config || key in inherited
  }

  /** The record after `setConfig(key, value)`, or nothing when it throws. */
  function Assign(config: map<string, string>, inherited: set<string>, key: string, value: string)
    : (r: Option<map<string, string>>)
    ensures r.Some? <==> key in config || key in inherited
    ensures r.Some? ==> r.value.Keys == config.Keys + {key}
    ensures r.Some? && key in config ==> r.value.Keys == config.Keys
  {
    if Has(config, inherited, key) then Some(config[key := value]) else None
  }

  /** Reading a key after setting it gives the new value. */
  lemma GetAfterSet(config: map<string, string>, inherited: set<string>, key: string, value: string)
    requires key in config || key in inherited
    ensures Assign(config, inherited, key, value).Some?
    ensures Lookup(Assign(config, inherited, key, value).value, key) == Some(value)
  {
  }

  /** Setting a key leaves every other key's value as it was, and its presence. */
  lemma SetLeavesOthers(config: map<string, string>, inherited: set<string>, key: string, value: string, other: string)
    requires other != key
    ensures Assign(config, inherited, key, value).Some? ==>
      Lookup(Assign(config, inherited, key, value).value, other) == Lookup(config, other)
  {
  }

  /** Setting an own key to the value it already has changes nothing. */
  lemma SetSameValue(config: map<string, string>, inherited: set<string>, key: string)
    requires key in config
    ensures Assign(config, inherited, key, config[key]) == Some(config)
  {
    assert config[key := config[key]] == config by {
      assert forall k :: k in config ==> config[key := config[key]][k] == config[k];
    }
  }

  /** Setting an inherited name that is not yet an own key adds exactly that key. */
  lemma SetInheritedAddsKey(config: map<string, string>, inherited: set<string>, key: string, value: string)
    requires key !in config && key in inherited
    ensures Assign(config, inherited, key, value).Some?
    ensures |Assign(config, inherited, key, value).value| == |config| + 1
  {
  }

  /** The service object over the mutable `CONFIG` record. */
  class ConfigStore {
    /** The names `in` finds on the record's prototype chain. */
    const inherited: set<string>
    var config: map<string, string>

    constructor(initial: map<string, string>, inherited: set<string>)
      ensures config == initial && this.inherited == inherited
    {
      config := initial;
      this.inherited := inherited;
    }

    function GetConfig(key: string): (r: Option<string>)
      reads this
      ensures r.Some? <==> key in config
      ensures r.Some? ==> r.value == config[key]
    {
      Lookup(config, key)
    }

    method SetConfig(key: string, value: string) returns (r: Outcome)
      modifies this
      ensures Has(old(config), inherited, key) ==> r == Done && config == old(config)[key := value]
      ensures !Has(old(config), inherited, key) ==> r == Failed(UnknownKey(key)) && config == old(config)
      ensures Assign(old(config), inherited, key, value) == (if r.Done? then Some(config) else None)
    {
      if Has(config, inherited, key) {
        config := config[key := value];
        r := Done;
      } else {
        r := Failed(UnknownKey(key));
      }
    }
  }
}
