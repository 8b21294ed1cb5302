/**
  The verified-token cache (src/Utils/TokenCache.php).

  Entries are keyed by the literal token text and carry the decoded claims
  and an absolute expiry. Expiry is checked only when an entry is read, and a
  read that finds an expired entry deletes it. The wall clock (`time()`) is
  the explicit parameter `now`.
*/
module Tokens {
  import opened Wrappers

  /** The decoded claims of a token; their structure does not matter to the cache. */
  type Claims = map<string, string>

  datatype Entry = Entry(data: Claims, expiresAt: int)

  type CacheMap = map<string, Entry>

  /** The default time-to-live, in seconds, and the one the server constructs its cache with. */
  const DefaultTtl: int := 300

  /** An entry is live while its expiry is strictly in the future. */
  predicate Live(e: Entry, now: int) {
    e.expiresAt > now
  }

  /** Model of `set`: overwrite the token's entry with one expiring `ttl` seconds from now. */
  function Stored(c: CacheMap, token: string, data: Claims, now: int, ttl: int): (c': CacheMap)
    ensures token in c' && c'[token] == Entry(data, now + ttl)
    ensures c'.Keys == c.Keys + {token}
    ensures forall t :: t in c && t != token ==> c'[t] == c[t]
  {
    c[token := Entry(data, now + ttl)]
  }

  /** What `get` returns: the stored claims, only if the token has a live entry. */
  function Fetched(c: CacheMap, token: string, now: int): (r: Option<Claims>)
    ensures r.Some? <==> token in c && Live(c[token], now)
    ensures r.Some? ==> r.value == c[token].data
  {
    if token in c && Live(c[token], now) then Some(c[token].data) else None
  }

  /** The cache after `get`: an expired entry for the token is removed, nothing else changes. */
  function AfterFetch(c: CacheMap, token: string, now: int): (c': CacheMap)
    ensures token in c' <==> token in c && Live(c[token], now)
    ensures forall t :: t != token ==> (t in c' <==> t in c)
    ensures forall t :: t in c' ==> c'[t] == c[t]
  {
    if token in c && !Live(c[token], now) then c - {token} else c
  }

  /** With a positive TTL, a stored token is returned at every instant before its expiry. */
  lemma StoredThenFetched(c: CacheMap, token: string, data: Claims, now: int, ttl: int, later: int)
    requires ttl > 0 && now <= later < now + ttl
    ensures Fetched(Stored(c, token, data, now, ttl), token, later) == Some(data)
    ensures AfterFetch(Stored(c, token, data, now, ttl), token, later) == Stored(c, token, data, now, ttl)
  {
  }

  /** Expiry is strict: at the expiry instant and afterwards the entry is gone. */
  lemma ExpiredAtDeadline(c: CacheMap, token: string, data: Claims, now: int, ttl: int, later: int)
    requires later >= now + ttl
    ensures Fetched(Stored(c, token, data, now, ttl), token, later) == None
    ensures token !in AfterFetch(Stored(c, token, data, now, ttl), token, later)
  {
  }

  /**
    A read that misses leaves no entry behind: every later read of that token
    misses too, whatever the clock says, until the token is stored again.
  */
  lemma MissIsSticky(c: CacheMap, token: string, now: int, again: int)
    requires Fetched(c, token, now) == None
    ensures token !in AfterFetch(c, token, now)
    ensures Fetched(AfterFetch(c, token, now), token, again) == None
    ensures AfterFetch(AfterFetch(c, token, now), token, again) == AfterFetch(c, token, now)
  {
  }

  /** A read of an absent token changes nothing. */
  lemma AbsentFetchUnchanged(c: CacheMap, token: string, now: int)
    requires token !in c
    ensures Fetched(c, token, now) == None && AfterFetch(c, token, now) == c
  {
  }

  /** Storing or reading one token never changes what a read of another token returns. */
  lemma OtherTokensIndependent(c: CacheMap, token: string, other: string, data: Claims, now: int, ttl: int, at: int)
    requires other != token
    ensures Fetched(Stored(c, token, data, now, ttl), other, at) == Fetched(c, other, at)
    ensures Fetched(AfterFetch(c, token, now), other, at) == Fetched(c, other, at)
  {
  }

  class TokenCache {
    /** `cacheTTL`, in seconds. */
    const ttl: int
    var cache: CacheMap

    constructor (ttl: int)
      ensures this.ttl == ttl && cache == map[]
    {
      this.ttl := ttl;
      cache := map[];
    }

    method Set(token: string, decoded: Claims, now: int)
      modifies this
      ensures cache == Stored(old(cache), token, decoded, now, ttl)
    {
      cache := cache[token := Entry(decoded, now + ttl)];
    }

    method Get(token: string, now: int) returns (r: Option<Claims>)
      modifies this
      ensures r == Fetched(old(cache), token, now)
      ensures cache == AfterFetch(old(cache), token, now)
    {
      if token in cache {
        if cache[token].expiresAt > now {
          return Some(cache[token].data);
        } else {
          cache := cache - {token};
        }
      }
      return None;
    }
  }
}
