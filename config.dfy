/**
 * The typed settings registry (`Config`, app/database/config_manager.py).
 * A property is a key with a declared type and a default; reading it looks
 * the key up in the settings store, writing it stores a value of the
 * declared type and always notifies the key's callbacks on the event bus.
 */
module Settings {
  import opened EventBus

  /** The types a property can declare (`type_value`). */
  datatype PyType = StrType | IntType | BoolType

  /** `make_property(key_name, type_value, default_return)`. */
  datatype Property = Property(key: string, kind: PyType, default: Value)

  /** `isinstance(value, type_value)`; a `bool` is an instance of `int`. */
  predicate IsInstance(v: Value, t: PyType)
  {
    match t
    case StrType => v.StrValue?
    case IntType => v.IntValue? || v.BoolValue?
    case BoolType => v.BoolValue?
  }

  /** The one property the class declares itself. */
  const IntervalUpdateInventory := Property("interval_update_inventory", StrType, StrValue("Not Update"))

  /** The getter: the stored value, or the default when the store holds nothing (or `None`) for the key. */
  function Read(settings: map<string, Value>, p: Property): Value
  {
    if p.key in settings && !settings[p.key].NoneValue? then settings[p.key] else p.default
  }

  /** The store after the setter: only a value of the declared type is saved. */
  function Written(settings: map<string, Value>, p: Property, v: Value): (r: map<string, Value>)
    ensures r.Keys == if IsInstance(v, p.kind) then settings.Keys + {p.key} else settings.Keys
    ensures forall k :: k in settings && k != p.key ==> r[k] == settings[k]
  {
    if IsInstance(v, p.kind) then settings[p.key := v] else settings
  }

  /** A key nothing has been stored for reads as its default. */
  lemma ReadDefault(settings: map<string, Value>, p: Property)
    requires p.key !in settings
    ensures Read(settings, p) == p.default
  {
  }

  /** Reading back a written value of the declared type gives that value, in a store that keeps values as they are written. */
  lemma WriteThenRead(settings: map<string, Value>, p: Property, v: Value)
    requires IsInstance(v, p.kind)
    ensures Read(Written(settings, p, v), p) == v
  {
  }

  /** A value of another type is dropped: every property reads as before. */
  lemma IllTypedWriteIsLost(settings: map<string, Value>, p: Property, v: Value, q: Property)
    requires !IsInstance(v, p.kind)
    ensures Read(Written(settings, p, v), q) == Read(settings, q)
  {
  }

  /** Writing one key does not change what another key reads. */
  lemma WriteIsolated(settings: map<string, Value>, p: Property, v: Value, q: Property)
    requires q.key != p.key
    ensures Read(Written(settings, p, v), q) == Read(settings, q)
  {
  }

  /**
   * `True` passes the `isinstance` test of an `int` property, so the setter
   * stores it rather than dropping it.  The abstract store hands it back
   * unchanged; the SQLite table behind it would hand back the integer 1.
   */
  lemma BoolStoredAsInt(settings: map<string, Value>, key: string, default: Value)
    ensures Read(Written(settings, Property(key, IntType, default), BoolValue(true)), Property(key, IntType, default))
      == BoolValue(true)
  {
  }

  /** On an empty store the inventory refresh interval reads as `'Not Update'`. */
  lemma IntervalDefault()
    ensures Read(map[], IntervalUpdateInventory) == StrValue("Not Update")
  {
  }

  /** The table of properties after `add_property`: an existing key is left as it is. */
  function Added(properties: map<string, Property>, p: Property): (r: map<string, Property>)
    ensures p.key in r && r.Keys == properties.Keys + {p.key}
    ensures p.key in properties ==> r == properties
    ensures p.key !in properties ==> r[p.key] == p
  {
    if p.key in properties then properties else properties[p.key := p]
  }

  /** `add_property` is idempotent, and a later declaration of the same key is ignored. */
  lemma AddIdempotent(properties: map<string, Property>, p: Property, q: Property)
    requires q.key == p.key
    ensures Added(Added(properties, p), q) == Added(properties, p)
  {
  }

  /** The settings store (`sql_manager.get_setting` / `save_setting`). */
  class SettingStore {
    var settings: map<string, Value>

    constructor ()
      ensures settings == map[]
    {
      settings := map[];
    }
  }

  /**
   * The setter of a property: saves `v` when it has the declared type,
   * then triggers the key's callbacks with `v` whatever its type.
   */
  method Write(p: Property, v: Value, store: SettingStore, bus: CallbackManager)
    modifies store, bus
    ensures store.settings == Written(old(store.settings), p, v)
    ensures bus.callbacks == old(bus.callbacks)
    ensures bus.submitted == old(bus.submitted) + Triggered(bus.callbacks, Setting(p.key), [v], map[])
  {
    if IsInstance(v, p.kind) {
      store.settings := store.settings[p.key := v];
    }
    bus.Trigger(Setting(p.key), [v], map[]);
  }

  /**
   * `Config`: `properties` is `_properties`, the keys added at run time;
   * `attributes` are the properties installed on the class, which start with
   * `interval_update_inventory` although that one is not in `_properties`.
   */
  class Config {
    var properties: map<string, Property>
    var attributes: map<string, Property>

    /** Every added property is also installed on the class, and each attribute reads its own key. */
    predicate Valid()
      reads this
    {
      (forall k :: k in properties ==> k in attributes && attributes[k] == properties[k])
      && (forall k :: k in attributes ==> attributes[k].key == k)
    }

    constructor ()
      ensures Valid() && properties == map[]
      ensures attributes == map[IntervalUpdateInventory.key := IntervalUpdateInventory]
    {
      properties := map[];
      attributes := map[IntervalUpdateInventory.key := IntervalUpdateInventory];
    }

    /** `add_property`: a new key is added and installed on the class; an existing one is left alone. */
    method AddProperty(key: string, kind: PyType, default: Value)
      requires Valid()
      modifies this
      ensures Valid()
      ensures properties == Added(old(properties), Property(key, kind, default))
      ensures key in old(properties) ==> attributes == old(attributes)
      ensures key !in old(properties) ==> attributes == old(attributes)[key := Property(key, kind, default)]
    {
      if key in properties {
        return;
      }
      var p := Property(key, kind, default);
      properties := properties[key := p];
      attributes := attributes[key := p];
    }

    /** `get_property`: `None` for a key never added, else what its getter reads. */
    method GetProperty(key: string, store: SettingStore) returns (v: Value)
      requires Valid()
      ensures key !in properties ==> v == NoneValue
      ensures key in properties ==> v == Read(store.settings, properties[key])
    {
      if key !in properties {
        return NoneValue;
      }
      v := Read(store.settings, attributes[key]);
    }

    /** `set_property`: nothing for a key never added, else the property's setter. */
    method SetProperty(key: string, v: Value, store: SettingStore, bus: CallbackManager)
      requires Valid()
      modifies store, bus
      ensures key !in properties ==>
        store.settings == old(store.settings) && bus.submitted == old(bus.submitted)
      ensures key in properties ==>
        store.settings == Written(old(store.settings), properties[key], v)
        && bus.submitted == old(bus.submitted) + Triggered(bus.callbacks, Setting(key), [v], map[])
      ensures bus.callbacks == old(bus.callbacks)
    {
      if key !in properties {
        return;
      }
      Write(attributes[key], v, store, bus);
    }

    /** `interval_update_inventory`, read through the class attribute while no `add_property` has replaced it. */
    method IntervalUpdate(store: SettingStore) returns (v: Value)
      requires IntervalUpdateInventory.key in attributes
      requires attributes[IntervalUpdateInventory.key] == IntervalUpdateInventory
      ensures v == Read(store.settings, IntervalUpdateInventory)
      ensures IntervalUpdateInventory.key !in store.settings ==> v == StrValue("Not Update")
    {
      v := Read(store.settings, attributes[IntervalUpdateInventory.key]);
    }

    /** `register_callback`: the key's callback goes on the event bus. */
    static method RegisterCallback(key: string, h: Handler, bus: CallbackManager)
      modifies bus
      ensures bus.callbacks == Registered(old(bus.callbacks), Setting(key), h)
      ensures bus.submitted == old(bus.submitted)
    {
      bus.Register(Setting(key), h);
    }

    /** `unregister_callback`: the key's callback is taken off the event bus. */
    static method UnregisterCallback(key: string, h: Handler, bus: CallbackManager)
      modifies bus
      ensures bus.callbacks == Unregistered(old(bus.callbacks), Setting(key), h)
      ensures bus.submitted == old(bus.submitted)
    {
      bus.Unregister(Setting(key), h);
    }
  }

  /** A property added at run time reads back what `set_property` stored, when the value has its type. */
  method SetThenGet(config: Config, key: string, v: Value, store: SettingStore, bus: CallbackManager) returns (r: Value)
    requires config.Valid() && key in config.properties && IsInstance(v, config.properties[key].kind)
    modifies store, bus
    ensures r == v
  {
    config.SetProperty(key, v, store, bus);
    WriteThenRead(old(store.settings), config.properties[key], v);
    r := config.GetProperty(key, store);
  }
}
