/**
 * Property lookup on the object literals that js/main.js uses as tables
 * (`details[serviceType] || fallback` and `relationships[serviceType]`).
 *
 * An object literal inherits the members of Object.prototype, so a key such
 * as "constructor" or "toString" finds a (truthy) function even though the
 * table does not list it, and `|| fallback` then does not fall back.
 * `LookupOr` models the lookup as written; `OwnOrDefault` is the lookup the
 * tables are evidently meant to perform, and the rest of the model uses it.
 */
module JsObject {

  /** The property names every object literal inherits from Object.prototype. */
  const ObjectPrototypeMembers: set<string> := {
    "constructor", "__defineGetter__", "__defineSetter__", "hasOwnProperty",
    "__lookupGetter__", "__lookupSetter__", "isPrototypeOf",
    "propertyIsEnumerable", "toString", "valueOf", "__proto__", "toLocaleString"
  }

  /** What `table[key] || fallback` evaluates to: a value of the table's type,
      or a member inherited from Object.prototype. */
  datatype JsValue<V> = Value(v: V) | PrototypeMember(name: string)

  /** The table's own entry for `key`, or `default` when it has none. */
  function OwnOrDefault<V>(table: map<string, V>, key: string, default: V): (r: V)
    ensures key in table ==> r == table[key]
    ensures key !in table ==> r == default
  {
    if key in table then table[key] else default
  }

  /** `table[key] || default` as JavaScript evaluates it, for a table whose own
      values are all truthy (non-empty strings, objects and arrays). */
  function LookupOr<V>(table: map<string, V>, key: string, default: V): (r: JsValue<V>)
    ensures r.PrototypeMember? <==> key !in table && key in ObjectPrototypeMembers
    ensures r.PrototypeMember? ==> r.name == key
  {
    if key in table then Value(table[key])
    else if key in ObjectPrototypeMembers then PrototypeMember(key)
    else Value(default)
  }

  /** Off the inherited names, the lookup as written is the own-key lookup. */
  lemma LookupOrIsOwnOrDefault<V>(table: map<string, V>, key: string, default: V)
    requires key !in ObjectPrototypeMembers || key in table
    ensures LookupOr(table, key, default) == Value(OwnOrDefault(table, key, default))
  {
  }

  /** On an inherited name that the table lacks, the fallback is never reached. */
  lemma InheritedNameSkipsFallback<V>(table: map<string, V>, key: string, default: V)
    requires key in ObjectPrototypeMembers && key !in table
    ensures LookupOr(table, key, default) != Value(OwnOrDefault(table, key, default))
  {
  }
}
