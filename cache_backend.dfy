/** The key-value cache the client is handed: entries with the TTL each was
    written with, read with `get`, written with `set`, removed with `delete`,
    and listed with `search`, modelled as a prefix match over stored keys. */
module CacheBackend {

  /** A cached (or fetched) payload; `Null` is PHP's null, which `get` also
      returns for a key that is not stored. */
  datatype Value = Null | Data(body: string)

  /** What `get` sees for a key. */
  function Lookup(entries: map<string, Value>, key: string): (v: Value)
    ensures v != Null ==> key in entries && entries[key] == v
    ensures key in entries ==> v == entries[key]
  {
    if key in entries then entries[key] else Null
  }

  /** The stored keys that begin with `pattern`. */
  function Matching(entries: map<string, Value>, pattern: string): (keys: set<string>)
    ensures keys <= entries.Keys
    ensures forall k :: k in entries && pattern <= k ==> k in keys
  {
    set k | k in entries && pattern <= k
  }

  class Cache {
    var entries: map<string, Value>
    var ttls: map<string, int>

    /** Every stored entry has the TTL it was written with. */
    ghost predicate Valid()
      reads this
    {
      entries.Keys == ttls.Keys
    }

    constructor ()
      ensures Valid() && entries == map[] && ttls == map[]
    {
      entries, ttls := map[], map[];
    }

    method Get(key: string) returns (v: Value)
      ensures v != Null ==> key in entries && entries[key] == v
      ensures v == Null ==> key !in entries || entries[key] == Null
    {
      v := Lookup(entries, key);
    }

    method Set(key: string, v: Value, ttl: int)
      requires Valid()
      modifies this
      ensures Valid()
      ensures entries == old(entries)[key := v] && ttls == old(ttls)[key := ttl]
    {
      entries, ttls := entries[key := v], ttls[key := ttl];
    }

    method Delete(key: string) returns (deleted: bool)
      requires Valid()
      modifies this
      ensures Valid()
      ensures deleted <==> key in old(entries)
      ensures entries == old(entries) - {key} && ttls == old(ttls) - {key}
    {
      deleted := key in entries;
      entries, ttls := entries - {key}, ttls - {key};
    }

    method Search(pattern: string) returns (matches: set<string>)
      ensures forall k :: k in matches <==> k in entries && pattern <= k
    {
      matches := Matching(entries, pattern);
    }
  }
}
