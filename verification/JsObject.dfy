/**
 * JavaScript's plain objects as string-keyed tables. `{}` inherits from `Object.prototype`: a read of a key
 * that was never stored finds an inherited member of that name, and a string stored under `__proto__` goes to
 * the inherited setter, which ignores anything that is not an object.
 */
module JsObject {
  const PROTO := "__proto__"

  /** The members every plain object inherits (ECMA-262, section 20.1.3 and annex B.2.2). */
  predicate InheritedName(key: string) {
    key in {
      PROTO, "constructor", "hasOwnProperty", "isPrototypeOf", "propertyIsEnumerable", "toLocaleString",
      "toString", "valueOf", "__defineGetter__", "__defineSetter__", "__lookupGetter__", "__lookupSetter__"
    }
  }

  /** What reading a key finds; `Inherited` is a function or an object, never a string and never `undefined`. */
  datatype Slot<+V> = Own(value: V) | Inherited | Undefined

  /** `object[key] = value`, for a value that is not an object. */
  function Put<V>(table: map<string, V>, key: string, value: V): map<string, V> {
    if key == PROTO then table else table[key := value]
  }

  /** `object[key]`. */
  function Get<V>(table: map<string, V>, key: string): Slot<V> {
    if key in table then Own(table[key]) else if InheritedName(key) then Inherited else Undefined
  }

  /** A stored value is read back if and only if its key is not `__proto__`; every other key is unaffected. */
  lemma {:induction false} StoredIsRead<V>(table: map<string, V>, key: string, value: V, other: string)
    requires PROTO !in table
    ensures PROTO !in Put(table, key, value)
    ensures Get(Put(table, key, value), key) == Own(value) <==> key != PROTO
    ensures other != key ==> Get(Put(table, key, value), other) == Get(table, other)
  {
  }
}
