/**
 * The browser's `localStorage` and `sessionStorage` as the client uses them:
 * string values under string keys, where any call may throw (storage
 * disabled, quota exceeded, a security policy). Whether a call throws is
 * the environment's choice and is passed to each call as `fails`.
 */
module Storage {
  import opened Wrappers

  /** `getItem(key)` on the entries: the stored value, or null. */
  function Lookup(entries: map<string, string>, key: string): (r: Option<string>)
    ensures r.Some? <==> key in entries
    ensures r.Some? ==> r.value == entries[key]
  {
    if key in entries then Some(entries[key]) else None
  }

  /** A read that does not throw and finds exactly `'true'`. */
  predicate ReadsTrue(entries: map<string, string>, key: string, fails: bool) {
    !fails && Lookup(entries, key) == Some("true")
  }

  class KeyValueStore {
    var entries: map<string, string>

    constructor (initial: map<string, string>)
      ensures entries == initial
    {
      entries := initial;
    }

    /** `getItem(key)`; `threw` when the call throws. */
    method GetItem(key: string, fails: bool) returns (threw: bool, value: Option<string>)
      ensures threw == fails
      ensures !threw ==> value == Lookup(entries, key)
    {
      threw := fails;
      value := if fails then None else Lookup(entries, key);
    }

    /** `setItem(key, value)`: the entry is written unless the call throws. */
    method SetItem(key: string, value: string, fails: bool) returns (threw: bool)
      modifies this
      ensures threw == fails
      ensures entries == if fails then old(entries) else old(entries)[key := value]
    {
      threw := fails;
      if !fails {
        entries := entries[key := value];
      }
    }

    /** `removeItem(key)`: the entry is gone unless the call throws. */
    method RemoveItem(key: string, fails: bool) returns (threw: bool)
      modifies this
      ensures threw == fails
      ensures entries == if fails then old(entries) else old(entries) - {key}
    {
      threw := fails;
      if !fails {
        entries := entries - {key};
      }
    }
  }
}
