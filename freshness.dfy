/** The freshness policy of the tracker: a cache key is due for a refresh when it
    has no metadata row or when its last successful sync is more than the maximum
    age in the past. Only the timestamp is consulted: an empty `launches` table
    with a recent metadata row is not due. */
module Freshness {
  import opened LaunchStore

  const SECONDS_PER_HOUR: int := 3600

  /** `max_age_hours` when the caller passes none: one day. */
  const DEFAULT_MAX_AGE_HOURS: int := 24

  /** `_should_refresh_cache(key, max_age_hours)` at clock reading `now`. */
  function ShouldRefresh(meta: MetadataTable, key: string, now: int, maxAgeHours: int): (due: bool)
    ensures key !in meta ==> due
    ensures key in meta ==> (due <==> meta[key].lastUpdated < now - maxAgeHours * SECONDS_PER_HOUR)
  {
    if key !in meta then true
    else now - meta[key].lastUpdated > maxAgeHours * SECONDS_PER_HOUR
  }

  /** The comparison is strict: data exactly `maxAgeHours` old is still fresh, one
      second more and it is due. */
  lemma MaxAgeBoundary(meta: MetadataTable, key: string, maxAgeHours: int)
    requires key in meta
    ensures !ShouldRefresh(meta, key, meta[key].lastUpdated + maxAgeHours * SECONDS_PER_HOUR, maxAgeHours)
    ensures ShouldRefresh(meta, key, meta[key].lastUpdated + maxAgeHours * SECONDS_PER_HOUR + 1, maxAgeHours)
  {
  }

  /** With the metadata unchanged, a key that is due stays due as the clock advances. */
  lemma DueStaysDue(meta: MetadataTable, key: string, now: int, later: int, maxAgeHours: int)
    requires now <= later
    requires ShouldRefresh(meta, key, now, maxAgeHours)
    ensures ShouldRefresh(meta, key, later, maxAgeHours)
  {
  }

  /** Stamping a key at `t` makes it fresh for the whole window [t, t + max age],
      whatever the other keys hold. */
  lemma FreshAfterStamp(meta: MetadataTable, key: string, t: int, data: Values.Option<string>, now: int, maxAgeHours: int)
    requires t <= now <= t + maxAgeHours * SECONDS_PER_HOUR
    ensures !ShouldRefresh(meta[key := CacheEntry(t, data)], key, now, maxAgeHours)
  {
  }

  /** The default window is 86400 seconds. */
  lemma DefaultMaxAgeIsOneDay(meta: MetadataTable, key: string)
    requires key in meta
    ensures !ShouldRefresh(meta, key, meta[key].lastUpdated + 86400, DEFAULT_MAX_AGE_HOURS)
    ensures ShouldRefresh(meta, key, meta[key].lastUpdated + 86401, DEFAULT_MAX_AGE_HOURS)
  {
    MaxAgeBoundary(meta, key, DEFAULT_MAX_AGE_HOURS);
  }
}
