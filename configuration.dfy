/**
 * `Configuration` of `meteo/models/configuration.py`: a process-wide
 * key/value store. The class attribute `_instance` is modelled by
 * `ConfigurationClass`, whose `New` plays the part of `Configuration()`.
 */
module Settings {
  import opened Wrappers

  /** One configuration store; `V` stands for the values the application stores. */
  class Configuration<V> {
    /** `_config`. */
    var config: map<string, V>

    /** The object `__new__` creates the first time: an empty store. */
    constructor ()
      ensures config == map[]
      ensures forall key :: GetValue(key) == None
    {
      config := map[];
    }

    /** `set_value`: `key` now maps to `value`; any earlier value for it is overwritten and no other key changes. */
    method SetValue(key: string, value: V)
      modifies this
      ensures config == old(config)[key := value]
      ensures GetValue(key) == Some(value)
      ensures forall other :: other != key ==> GetValue(other) == old(GetValue(other))
    {
      config := config[key := value];
    }

    /** `get_value`: the stored value, or `None` for a key never set. */
    function GetValue(key: string): (r: Option<V>)
      reads this
      ensures r.None? <==> key !in config
      ensures r.Some? ==> r.value == config[key]
    {
      if key in config then Some(config[key]) else None
    }
  }

  /** The class object itself, holding `_instance`. */
  class ConfigurationClass<V> {
    var instance: Configuration?<V>

    /** The class as defined: `_instance = None`. */
    constructor ()
      ensures instance == null
    {
      instance := null;
    }

    /**
     * `Configuration()`, that is `__new__`: the first call creates the
     * instance with an empty store; every later call returns that same
     * instance, with whatever it holds.
     */
    method New() returns (c: Configuration<V>)
      modifies this
      ensures old(instance) == null ==> fresh(c) && c.config == map[]
      ensures old(instance) != null ==> c == old(instance) && c.config == old(c.config)
      ensures instance == c
    {
      if instance == null {
        instance := new Configuration();
      }
      c := instance;
    }
  }

  /**
   * Two constructions give one object: a value set through the first is
   * read back through the second, and a key never set reads as `None`.
   */
  method SharedInstanceExample<V>(key: string, other: string, value: V) returns (same: bool, got: Option<V>, missing: Option<V>)
    requires other != key
    ensures same && got == Some(value) && missing == None
  {
    var cls := new ConfigurationClass<V>();
    var first := cls.New();
    first.SetValue(key, value);
    var second := cls.New();
    same := first == second;
    got := second.GetValue(key);
    missing := second.GetValue(other);
  }
}
