/** The key-value namespace the handlers read and write (`env.USER_STORE`). */
module KvStore {
  import opened Wrappers

  class Store<V> {
    /** Everything stored, by key. */
    var entries: map<string, V>

    constructor (initial: map<string, V>)
      ensures entries == initial
    {
      entries := initial;
    }

    /** `get(key)`: the stored value, or None (`null`) when the key is absent. */
    method Get(key: string) returns (value: Option<V>)
      ensures value.Some? <==> key in entries
      ensures value.Some? ==> value.value == entries[key]
    {
      value := if key in entries then Some(entries[key]) else None;
    }

    /** `put(key, value)`: replaces whatever was stored under `key`; every other key keeps its value. */
    method Put(key: string, value: V)
      modifies this
      ensures entries == old(entries)[key := value]
    {
      entries := entries[key := value];
    }
  }
}
