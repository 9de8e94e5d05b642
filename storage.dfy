/** The browser's key-value store as both widgets use it: one key per widget
    holding the whole record list, read fail-soft at start-up and rewritten
    after every change. The JSON text is abstracted to what `JSON.parse` makes
    of it. */
module Storage {

  /** What a stored value parses to: an array of records, some other JSON
      value, or text that does not parse at all (the empty string included). */
  datatype Stored<R> = Records(items: seq<R>) | NotAnArray | Unparsable

  /** `loadTodos` / `loadMessages`: the stored array if the key holds one, and
      the empty list whenever the key is absent, unparsable or not an array. */
  function LoadFrom<R>(entries: map<string, Stored<R>>, key: string): (r: seq<R>)
    ensures r != [] ==> key in entries && entries[key] == Records(r)
    ensures key in entries && entries[key].Records? ==> r == entries[key].items
    ensures key !in entries || !entries[key].Records? ==> r == []
  {
    if key !in entries then []
    else match entries[key]
      case Records(items) => items
      case _ => []
  }

  /** After a save: either the write went through, or the store is as it was. */
  predicate WrittenOrKept<R(==)>(before: map<string, Stored<R>>, after: map<string, Stored<R>>, key: string, records: seq<R>)
  {
    after == before[key := Records(records)] || after == before
  }

  /** The store: a map from key to stored value, changed only by `Save`. */
  class Store<R> {
    var entries: map<string, Stored<R>>

    constructor (initial: map<string, Stored<R>>)
      ensures entries == initial
    {
      entries := initial;
    }

    function Load(key: string): seq<R>
      reads this
    {
      LoadFrom(entries, key)
    }

    /** `saveTodos` / `saveMessages`: writes the whole list under `key` and
        reports `true`, or, when the browser refuses the write (quota,
        private mode), changes nothing and reports `false`. Which of the two
        happens is not in the program's control. */
    method Save(key: string, records: seq<R>) returns (ok: bool)
      modifies this
      ensures ok ==> entries == old(entries)[key := Records(records)]
      ensures !ok ==> entries == old(entries)
      ensures ok ==> Load(key) == records
    {
      ok :| true;
      if ok {
        entries := entries[key := Records(records)];
      }
    }
  }
}
