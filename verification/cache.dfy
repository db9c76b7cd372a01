/**
 * The cache the sitemap service and the clear command share: values by
 * key, each remembered with the number of hours it was stored for. Time
 * does not pass in the model, so an entry is present until it is
 * overwritten or forgotten.
 */
module CacheStore {

  /** What the sitemap code stores: the cooldown flag or the sitemap text. */
  datatype CacheValue = Flag | Content(text: string)

  datatype CacheEntry = CacheEntry(value: CacheValue, ttlHours: nat)

  type Store = map<string, CacheEntry>

  const CooldownKey: string := "sitemap_generated"
  const ContentKey: string := "sitemap_content"

  /**
   * `Cache::put($key, $value, now()->addHours($hours))`: a lifetime of zero
   * hours or less stores nothing and forgets the key.
   */
  function Put(c: Store, key: string, v: CacheValue, hours: int): (r: Store)
    ensures hours > 0 ==> key in r && r[key] == CacheEntry(v, hours)
    ensures hours <= 0 ==> key !in r
    ensures forall k :: k != key ==> (k in r <==> k in c) && (k in r ==> r[k] == c[k])
  {
    if hours > 0 then c[key := CacheEntry(v, hours)] else c - {key}
  }

  /** `Cache::forget`. */
  function Forget(c: Store, key: string): (r: Store)
    ensures key !in r
    ensures forall k :: k != key ==> (k in r <==> k in c) && (k in r ==> r[k] == c[k])
  {
    c - {key}
  }
}
