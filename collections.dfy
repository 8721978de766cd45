/**
 * java.util.HashMap<String, String> as the generator uses it: a mutable
 * object with put, get, isEmpty and a copy constructor. HashMap admits a
 * null key, so keys are optional strings; values are never null here.
 */
module Collections {
  import opened Wrappers

  type Key = Option<string>

  /** The value stored under k, or None (Java's null) when k is absent. */
  function Lookup<K>(m: map<K, string>, k: K): (r: Option<string>)
    ensures r.Some? <==> k in m
    ensures r.Some? ==> r.value == m[k]
  {
    if k in m then Some(m[k]) else None
  }

  class HashMap {
    /** The key/value pairs currently held by the object. */
    var entries: map<Key, string>

    /** new HashMap<>(): no entries. */
    constructor ()
      ensures entries == map[]
    {
      entries := map[];
    }

    /** new HashMap<>(other): a new object holding the entries other holds now. */
    constructor Copy(other: HashMap)
      ensures entries == other.entries
    {
      entries := other.entries;
    }

    /** get(k): the value under k, or null. */
    method Get(k: Key) returns (r: Option<string>)
      ensures r.Some? <==> k in entries
      ensures r.Some? ==> r.value == entries[k]
    {
      r := Lookup(entries, k);
    }

    /** put(k, v): k now maps to v; every other key keeps its value. */
    method Put(k: Key, v: string)
      modifies this
      ensures entries == old(entries)[k := v]
      ensures |entries| == |old(entries)| + (if k in old(entries) then 0 else 1)
    {
      entries := entries[k := v];
    }

    /** isEmpty(): no key is present. */
    method IsEmpty() returns (b: bool)
      ensures b <==> entries == map[]
    {
      b := |entries| == 0;
    }
  }
}
