/**
 * Plain JavaScript objects with string-valued properties, as `doRequest`
 * and `sign` use the caller's query: the own keys enumerate in insertion
 * order, assigning a new key appends it, and assigning a key that is
 * already there replaces its value in place.
 */
module JsObjects {

  /** An object: its own keys in enumeration order and the value of each. */
  datatype JsObject = JsObject(keys: seq<string>, values: map<string, string>)
  {
    /** Every key is listed once, and the listed keys are exactly those holding a value. */
    predicate Valid()
    {
      multiset(keys) == multiset(values.Keys)
    }

    /** `obj[key] = value`. */
    function Set(key: string, value: string): JsObject
    {
      JsObject(if key in values then keys else keys + [key], values[key := value])
    }
  }

  /** `String(obj[key])`: the value, or `"undefined"` for a key the object does not hold. */
  function PropertyString(values: map<string, string>, key: string): string
  {
    if key in values then values[key] else "undefined"
  }

  /**
   * An assignment keeps the object well formed, keeps the keys already there
   * in their places, and lists a new key last.
   */
  lemma SetKeepsOrder(obj: JsObject, key: string, value: string)
    requires obj.Valid()
    ensures obj.Set(key, value).Valid()
    ensures obj.Set(key, value).values.Keys == obj.values.Keys + {key}
    ensures obj.Set(key, value).values[key] == value
    ensures forall k :: k in obj.values && k != key ==> obj.Set(key, value).values[k] == obj.values[k]
    ensures key in obj.values ==> obj.Set(key, value).keys == obj.keys
    ensures key !in obj.values ==> obj.Set(key, value).keys == obj.keys + [key]
  {
    if key !in obj.values {
      assert obj.values[key := value].Keys == obj.values.Keys + {key};
    }
  }

  /**
   * An assignment, well formed or not, adds its key to the domain, changes no
   * other value, and keeps the listed keys as a prefix.
   */
  lemma SetExtends(obj: JsObject, key: string, value: string)
    ensures obj.Set(key, value).values.Keys == obj.values.Keys + {key}
    ensures obj.Set(key, value).values[key] == value
    ensures forall k :: k in obj.values && k != key ==> obj.Set(key, value).values[k] == obj.values[k]
    ensures |obj.keys| <= |obj.Set(key, value).keys| && obj.Set(key, value).keys[..|obj.keys|] == obj.keys
  {
  }
}
