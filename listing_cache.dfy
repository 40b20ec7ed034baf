/** The module-level cache slot that the list-metadata and list-files routes
    each keep: the last result (or nothing yet) and the time it was fetched. */
module ListingCache {
  import opened Common

  /** Five minutes, in milliseconds. */
  const CacheDuration: int := 5 * 60 * 1000

  class Slot<T> {
    var cached: Option<seq<T>>
    var lastFetchTime: int

    /** The state a route module starts in: nothing cached, fetched at 0. */
    constructor ()
      ensures cached == None && lastFetchTime == 0
    {
      cached := None;
      lastFetchTime := 0;
    }

    /** `cachedMetadata && (now - lastFetchTime) < CACHE_DURATION`; an empty
        list is a JavaScript array and therefore truthy, so it counts. */
    predicate Fresh(now: int)
      reads this
      ensures Fresh(now) ==> cached.Some? && lastFetchTime > now - CacheDuration
      ensures cached.Some? && lastFetchTime == now ==> Fresh(now)
    {
      cached.Some? && now - lastFetchTime < CacheDuration
    }

    /** The two assignments that follow a successful recomputation. */
    method Refresh(now: int, result: seq<T>)
      modifies this
      ensures cached == Some(result) && lastFetchTime == now
      ensures Fresh(now)
    {
      cached := Some(result);
      lastFetchTime := now;
    }
  }
}
