/**
 * The KeyValueStore as the CloudFront Functions runtime shows it to the two
 * edge handlers: `kvs.get(key)` answers the stored value, and throws when the
 * key is missing (the model answers None). The store keeps a ghost log of
 * the keys looked up.
 */
module EdgeStore {
  import opened Wrappers

  class KeyValueStore {
    const entries: map<string, string>
    ghost var lookups: seq<string>

    constructor (entries0: map<string, string>)
      ensures entries == entries0 && lookups == []
    {
      entries := entries0;
      lookups := [];
    }

    /** kvs.get: the value stored under key, or None where the runtime throws. */
    method Get(key: string) returns (r: Option<string>)
      modifies this
      ensures lookups == old(lookups) + [key]
      ensures r == Lookup(entries, key)
    {
      lookups := lookups + [key];
      r := if key in entries then Some(entries[key]) else None;
    }
  }

  /** The answer of kvs.get on a store holding entries. */
  function Lookup(entries: map<string, string>, key: string): Option<string>
  {
    if key in entries then Some(entries[key]) else None
  }

  /** JavaScript truthiness of a lookup: a value that is present and not the empty string. */
  predicate IsHit(r: Option<string>)
  {
    r.Some? && r.value != ""
  }
}
