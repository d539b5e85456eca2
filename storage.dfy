/** The browser's key-value store (`localStorage`, `sessionStorage`): text
    values under text keys. */
module Storage {
  import opened Wrappers

  class Store {
    var entries: map<string, string>

    constructor (initial: map<string, string>)
      ensures entries == initial
    {
      entries := initial;
    }

    /** `getItem(key)`: the stored text, or null. */
    function GetItem(key: string): (r: Option<string>)
      reads this
      ensures r.Some? <==> key in entries
      ensures r.Some? ==> r.value == entries[key]
    {
      if key in entries then Some(entries[key]) else None
    }

    /** `setItem(key, value)`. */
    method SetItem(key: string, value: string)
      modifies this
      ensures entries == old(entries)[key := value]
    {
      entries := entries[key := value];
    }

    /** `removeItem(key)`. */
    method RemoveItem(key: string)
      modifies this
      ensures entries == old(entries) - {key}
    {
      entries := entries - {key};
    }
  }
}
