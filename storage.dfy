/**
 * Persistence as the three scripts see it: a string-keyed store of texts (the
 * browser's `localStorage`, or the file system with a path as key), with JSON
 * parsing passed in as an abstract partial function.
 */
module Storage {
  import opened Wrappers

  class KeyValueStore {
    var items: map<string, string>

    constructor (initial: map<string, string>)
      ensures items == initial
    {
      items := initial;
    }

    /** `getItem(key)`: `null` when the key is absent. */
    function GetItem(key: string): (r: Option<string>)
      reads this
      ensures r.Some? <==> key in items
      ensures r.Some? ==> r.value == items[key]
    {
      if key in items then Some(items[key]) else None
    }

    /** `setItem(key, text)`, or `writeFileSync(path, text)`: replaces the whole value. */
    method SetItem(key: string, text: string)
      modifies this
      ensures items == old(items)[key := text]
    {
      items := items[key := text];
    }

    /** `removeItem(key)`. */
    method RemoveItem(key: string)
      modifies this
      ensures items == old(items) - {key}
    {
      items := items - {key};
    }
  }

  /**
   * The list a browser load returns for the store contents `items`: the empty list
   * when the key is absent, its text is empty, or the text does not parse.
   */
  function StoredList<T>(items: map<string, string>, key: string, parse: string -> Option<seq<T>>): seq<T> {
    if key !in items || items[key] == "" then []
    else match parse(items[key])
      case Some(xs) => xs
      case None => []
  }

  /**
   * `stored ? JSON.parse(stored) : []`, where a parse failure removes the key and
   * yields the empty list (the shared shape of `loadRemoteEntries` and `loadLinks`).
   */
  method LoadList<T>(store: KeyValueStore, key: string, parse: string -> Option<seq<T>>) returns (xs: seq<T>)
    modifies store
    ensures xs == StoredList(old(store.items), key, parse)
    ensures key !in old(store.items) || old(store.items)[key] == "" ==> xs == [] && store.items == old(store.items)
    ensures key in old(store.items) && old(store.items)[key] != "" && parse(old(store.items)[key]).None? ==>
              xs == [] && store.items == old(store.items) - {key}
    ensures key in old(store.items) && old(store.items)[key] != "" && parse(old(store.items)[key]).Some? ==>
              xs == parse(old(store.items)[key]).value && store.items == old(store.items)
  {
    var stored := store.GetItem(key);
    if stored.None? || stored.value == "" {
      xs := [];
    } else {
      var parsed := parse(stored.value);
      if parsed.None? {
        store.RemoveItem(key);
        xs := [];
      } else {
        xs := parsed.value;
      }
    }
  }

  /** What a store must satisfy for a save followed by a load to give the saved list back. */
  ghost predicate RoundTrips<T>(parse: string -> Option<seq<T>>, stringify: seq<T> -> string, xs: seq<T>) {
    stringify(xs) != "" && parse(stringify(xs)) == Some(xs)
  }

}
