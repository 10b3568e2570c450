/**
 The host platform's per-user metadata store, reduced to what the plugin
 uses: read one value, delete a key, overwrite a key. The store itself is
 not part of the plugin; it is modelled abstractly so that the plugin's
 save rule can be stated against it.
 */
module UserMeta {

  /** Stored values, keyed by user id and meta key. The plugin always reads
      with `single = true`, so one value per key is enough. */
  type Entries = map<(int, string), string>

  /** `get_user_meta(user, key, true)`: the stored value, or "" when nothing
      is stored under that key. */
  function Get(e: Entries, user: int, key: string): string
  {
    if (user, key) in e then e[(user, key)] else ""
  }

  /** A mutating call issued to the store. */
  datatype Call =
    | DeleteCall(user: int, key: string)
    | UpdateCall(user: int, key: string, value: string)

  /** The store as the plugin's save hook sees it: its entries, and the log
      of every mutating call it has received (oldest first), so that "no
      write happens" can be stated. */
  class MetaStore {
    var entries: Entries
    var calls: seq<Call>

    constructor (initial: Entries)
      ensures entries == initial && calls == []
    {
      entries := initial;
      calls := [];
    }

    /** `get_user_meta(user, key, true)` */
    function Read(user: int, key: string): string
      reads this
    {
      Get(entries, user, key)
    }

    /** `delete_user_meta(user, key, '')`: an empty value deletes whatever
        is stored under the key (nothing, if nothing is). */
    method Delete(user: int, key: string)
      modifies this
      ensures entries == old(entries) - {(user, key)}
      ensures (user, key) !in entries
      ensures calls == old(calls) + [DeleteCall(user, key)]
    {
      entries := entries - {(user, key)};
      calls := calls + [DeleteCall(user, key)];
    }

    /** `update_user_meta(user, key, value)`: creates or overwrites. */
    method Update(user: int, key: string, value: string)
      modifies this
      ensures entries == old(entries)[(user, key) := value]
      ensures Get(entries, user, key) == value
      ensures calls == old(calls) + [UpdateCall(user, key, value)]
    {
      entries := entries[(user, key) := value];
      calls := calls + [UpdateCall(user, key, value)];
    }
  }
}
