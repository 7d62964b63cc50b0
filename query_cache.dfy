/** The part of the shared query cache that the message hook relies on: a store of
    values addressed by query key, read by `getQueryData` and replaced through
    `setQueryData` with an updater function. */
module QueryCache {
  import opened Prelude

  /** A query key such as `["messages", roomId]`. */
  type QueryKey = seq<string>

  /** The value stored under `key`, or `undefined` when there is none. */
  function GetQueryData<T>(cache: map<QueryKey, T>, key: QueryKey): Option<T>
  {
    if key in cache then Some(cache[key]) else None
  }

  /** The cache after the updater's result `next` is installed under `key`:
      `undefined` leaves the cache as it was, a value replaces the entry. */
  function Install<T>(cache: map<QueryKey, T>, key: QueryKey, next: Option<T>): (r: map<QueryKey, T>)
    ensures forall k :: k != key ==> GetQueryData(r, k) == GetQueryData(cache, k)
    ensures GetQueryData(r, key) == if next.Some? then next else GetQueryData(cache, key)
  {
    if next.Some? then cache[key := next.value] else cache
  }

  /** The query client shared by the application; `data` is the whole cache. */
  class QueryClient<T> {
    var data: map<QueryKey, T>

    constructor ()
      ensures data == map[]
    {
      data := map[];
    }

    /** `setQueryData(key, updater)`: hands the current entry (or `undefined`) to
        `updater` and installs what it returns. */
    method SetQueryData(key: QueryKey, updater: Option<T> -> Option<T>)
      modifies this
      ensures data == Install(old(data), key, updater(GetQueryData(old(data), key)))
    {
      data := Install(data, key, updater(GetQueryData(data, key)));
    }
  }
}
