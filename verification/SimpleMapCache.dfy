/** The message cache: at most one object per key. */
module SimpleMapCaches {
  import opened Wrappers

  /** The exception `add` throws, with the key that was taken. */
  datatype CacheError = DuplicateKey(key: string)

  /** The cache holds its recursive mutex throughout each call, so every method is one atomic step. */
  class SimpleMapCache<V> {
    var entries: map<string, V>

    constructor ()
      ensures entries == map[]
    {
      entries := map[];
    }

    /** The number of objects under the key. */
    method Lookup(key: string) returns (found: int)
      ensures found == (if key in entries then 1 else 0)
    {
      found := if key in entries then 1 else 0;
    }

    /** Refuses a key that is taken and leaves the cache as it was. */
    method Add(key: string, item: V) returns (r: Result<(), CacheError>)
      modifies this
      ensures if key in old(entries) then r == Failure(DuplicateKey(key)) && entries == old(entries)
              else r == Success(()) && entries == old(entries)[key := item]
    {
      var found := Lookup(key);
      if found == 0 {
        entries := entries[key := item];
        r := Success(());
      } else {
        r := Failure(DuplicateKey(key));
      }
    }

    method PopObject(key: string) returns (popped: Option<V>)
      modifies this
      ensures if key in old(entries) then popped == Some(old(entries)[key]) && entries == old(entries) - {key}
              else popped == None && entries == old(entries)
    {
      if key !in entries {
        return None;
      }
      popped := Some(entries[key]);
      entries := entries - {key};
    }
  }
}
