/**
 * `set(object, value, options)` from the single-file `es-set-tostringtag`:
 * unless `force` is set, an object that already has an own
 * `Symbol.toStringTag` is left alone; otherwise the tag is defined as a
 * configurable, non-enumerable, read-only data property holding `value`.
 * `Object.defineProperty` throws a TypeError when it cannot redefine a
 * non-configurable tag or add one to a non-extensible object.
 */
module SetToStringTag {
  import opened Wrappers

  /** Property keys: strings and symbols (by description). */
  datatype PropertyKey = StringKey(name: string) | SymbolKey(description: string)

  const ToStringTag := SymbolKey("Symbol.toStringTag")

  /** An own data property with its attributes. */
  datatype Property<V> = Property(value: V, configurable: bool, enumerable: bool, writable: bool)

  /** `{ force?: boolean }`: `None` when `force` is left out, as it is in the default `{}`. */
  datatype Options = Options(force: Option<bool>)

  const DefaultOptions := Options(None)

  /** `options.force || !hasOwnProperty(object, Symbol.toStringTag)`. */
  predicate Applies<V>(properties: map<PropertyKey, Property<V>>, options: Options)
  {
    options.force == Some(true) || ToStringTag !in properties
  }

  /** The property descriptor `set` passes to `Object.defineProperty`. */
  function TagProperty<V>(value: V): Property<V>
  {
    Property(value, true, false, false)
  }

  /** `Object.defineProperty` rejects the descriptor: a non-configurable tag, or no tag on a non-extensible object. */
  predicate Rejects<V>(properties: map<PropertyKey, Property<V>>, extensible: bool)
  {
    if ToStringTag in properties then !properties[ToStringTag].configurable else !extensible
  }

  /** `set` throws exactly when its guard holds and the definition is rejected. */
  predicate Throws<V>(properties: map<PropertyKey, Property<V>>, extensible: bool, options: Options)
  {
    Applies(properties, options) && Rejects(properties, extensible)
  }

  /** The own properties after `set`. */
  function AfterSet<V>(properties: map<PropertyKey, Property<V>>, extensible: bool, value: V, options: Options)
    : map<PropertyKey, Property<V>>
  {
    if Applies(properties, options) && !Rejects(properties, extensible) then properties[ToStringTag := TagProperty(value)]
    else properties
  }

  /** An ordinary object: its own properties and whether new ones may be added. */
  class PlainObject<V> {
    var properties: map<PropertyKey, Property<V>>
    var extensible: bool

    constructor (properties: map<PropertyKey, Property<V>>, extensible: bool)
      ensures this.properties == properties && this.extensible == extensible
    {
      this.properties := properties;
      this.extensible := extensible;
    }

    /** `set(this, value, options)`; `threw` reports the TypeError, after which nothing has changed. */
    method Set(value: V, options: Options) returns (threw: bool)
      modifies this`properties
      ensures threw == Throws(old(properties), extensible, options)
      ensures properties == AfterSet(old(properties), extensible, value, options)
      ensures threw ==> properties == old(properties)
    {
      threw := false;
      if options.force == Some(true) || ToStringTag !in properties {
        if ToStringTag in properties {
          if properties[ToStringTag].configurable {
            properties := properties[ToStringTag := TagProperty(value)];
          } else {
            threw := true;
          }
        } else if extensible {
          properties := properties[ToStringTag := TagProperty(value)];
        } else {
          threw := true;
        }
      }
    }
  }

  /** Without `force`, an object that already has its own tag is left unchanged and nothing is thrown. */
  lemma UnforcedKeepsExisting<V>(properties: map<PropertyKey, Property<V>>, extensible: bool, value: V, options: Options)
    requires options.force != Some(true) && ToStringTag in properties
    ensures AfterSet(properties, extensible, value, options) == properties
    ensures !Throws(properties, extensible, options)
  {
  }

  /**
   * Whenever `set` applies and does not throw, the own tag holds `value` and is
   * configurable, non-enumerable and read-only; every other property keeps
   * its presence and its value.
   */
  lemma SetDefinesTag<V>(properties: map<PropertyKey, Property<V>>, extensible: bool, value: V, options: Options, key: PropertyKey)
    requires Applies(properties, options) && !Throws(properties, extensible, options)
    ensures var after := AfterSet(properties, extensible, value, options);
      && ToStringTag in after
      && after[ToStringTag].value == value
      && after[ToStringTag].configurable && !after[ToStringTag].enumerable && !after[ToStringTag].writable
      && (key != ToStringTag ==> (key in after <==> key in properties))
      && (key != ToStringTag && key in properties ==> after[key] == properties[key])
  {
  }

  /** Two calls with the default options: the second neither throws nor changes anything, so the first value stays. */
  lemma SecondDefaultCallKeepsFirst<V>(properties: map<PropertyKey, Property<V>>, extensible: bool, first: V, second: V)
    requires !Throws(properties, extensible, DefaultOptions)
    ensures var once := AfterSet(properties, extensible, first, DefaultOptions);
      && !Throws(once, extensible, DefaultOptions)
      && AfterSet(once, extensible, second, DefaultOptions) == once
      && ToStringTag in once
      && (ToStringTag !in properties ==> once[ToStringTag] == TagProperty(first))
  {
  }

  /** With `force`, an existing configurable tag is redefined with the new value. */
  lemma ForceOverwrites<V>(properties: map<PropertyKey, Property<V>>, extensible: bool, value: V)
    requires ToStringTag in properties && properties[ToStringTag].configurable
    ensures AfterSet(properties, extensible, value, Options(Some(true))) == properties[ToStringTag := TagProperty(value)]
    ensures !Throws(properties, extensible, Options(Some(true)))
  {
  }
}
