/** The bounded cache of signing chains (`src/alexa.rs`). */
module ChainCache {
  import opened Common

  const MAX_CACHED_CHAINS: nat := 16

  /** A parsed chain, by the certificates in it, and when it was fetched. */
  datatype Chain<C> = Chain(certs: C, fetched: int)

  function FetchedAt<C>(chain: Chain<C>): int {
    chain.fetched
  }

  function Fresh<C>(cache: map<string, Chain<C>>, now: int, ttl: int): map<string, Chain<C>> {
    map k | k in cache && now - cache[k].fetched < ttl :: cache[k]
  }

  /** Room is made only for a key the full cache does not have. */
  predicate Full<C>(cache: map<string, Chain<C>>, key: string) {
    |cache| >= MAX_CACHED_CHAINS && key !in cache
  }

  predicate MayEvict<C>(cache: map<string, Chain<C>>, key: string, now: int, ttl: int, victim: string) {
    var young := Fresh(cache, now, ttl);
    Full(cache, key) && |young| >= MAX_CACHED_CHAINS ==> Oldest(young, FetchedAt<C>, victim)
  }

  function Room<C>(cache: map<string, Chain<C>>, key: string, now: int, ttl: int, victim: string): map<string, Chain<C>> {
    var young := Fresh(cache, now, ttl);
    if !Full(cache, key) then cache
    else if |young| >= MAX_CACHED_CHAINS then young - {victim}
    else young
  }

  function Stored<C>(cache: map<string, Chain<C>>, key: string, certs: C, now: int, ttl: int, victim: string): map<string, Chain<C>> {
    Room(cache, key, now, ttl, victim)[key := Chain(certs, now)]
  }

  class Verifier<C> {
    var cache: map<string, Chain<C>>
    const ttl: int

    constructor (ttl: int)
      ensures cache == map[] && this.ttl == ttl
    {
      cache := map[];
      this.ttl := ttl;
    }

    method Store(key: string, certs: C, now: int) returns (ghost victim: string)
      modifies this`cache
      ensures MayEvict(old(cache), key, now, ttl, victim)
      ensures cache == Stored(old(cache), key, certs, now, ttl, victim)
    {
      victim := key;
      if |cache| >= MAX_CACHED_CHAINS && key !in cache {
        cache := map k | k in cache && now - cache[k].fetched < ttl :: cache[k];
        if |cache| >= MAX_CACHED_CHAINS {
          ghost var some := OldestExists(cache, FetchedAt<C>);
          var oldest :| oldest in cache && Oldest(cache, FetchedAt<C>, oldest);
          victim := oldest;
          cache := cache - {oldest};
        }
      }
      cache := cache[key := Chain(certs, now)];
    }

    /** The cached answer of `chain_for`: a stored chain is served while it is fresh. */
    method Cached(key: string, now: int) returns (certs: Option<C>)
      ensures certs == if key in cache && now - cache[key].fetched < ttl then Some(cache[key].certs) else None
    {
      if key in cache && now - cache[key].fetched < ttl {
        return Some(cache[key].certs);
      }
      return None;
    }
  }

  /** A store, and the entry given up where one had to be. */
  datatype Fetch<C> = Fetch(key: string, certs: C, now: int, victim: string)

  function After<C>(fetches: seq<Fetch<C>>, ttl: int): map<string, Chain<C>> {
    if fetches == [] then map[]
    else
      var before, f := After(fetches[..|fetches| - 1], ttl), fetches[|fetches| - 1];
      if MayEvict(before, f.key, f.now, ttl, f.victim) then Stored(before, f.key, f.certs, f.now, ttl, f.victim) else before
  }

  lemma FreshSize<C>(cache: map<string, Chain<C>>, now: int, ttl: int)
    ensures |Fresh(cache, now, ttl)| <= |cache|
  {
    assert cache.Keys == Fresh(cache, now, ttl).Keys + (cache.Keys - Fresh(cache, now, ttl).Keys);
  }

  lemma RoomMade<C>(cache: map<string, Chain<C>>, key: string, now: int, ttl: int, victim: string)
    requires |cache| <= MAX_CACHED_CHAINS && MayEvict(cache, key, now, ttl, victim)
    ensures key in Room(cache, key, now, ttl, victim) || |Room(cache, key, now, ttl, victim)| < MAX_CACHED_CHAINS
    ensures |Room(cache, key, now, ttl, victim)| <= MAX_CACHED_CHAINS
  {
    FreshSize(cache, now, ttl);
    var young := Fresh(cache, now, ttl);
    if Full(cache, key) && |young| >= MAX_CACHED_CHAINS {
      assert (young - {victim}).Keys == young.Keys - {victim};
    }
  }

  lemma StoredFits<C>(cache: map<string, Chain<C>>, key: string, certs: C, now: int, ttl: int, victim: string)
    requires |cache| <= MAX_CACHED_CHAINS && MayEvict(cache, key, now, ttl, victim)
    ensures |Stored(cache, key, certs, now, ttl, victim)| <= MAX_CACHED_CHAINS
  {
    RoomMade(cache, key, now, ttl, victim);
    var room := Room(cache, key, now, ttl, victim);
    assert room[key := Chain(certs, now)].Keys == room.Keys + {key};
  }

  /** After any number of fetches the cache holds at most 16 chains. */
  lemma {:induction false} CacheBounded<C>(fetches: seq<Fetch<C>>, ttl: int)
    ensures |After(fetches, ttl)| <= MAX_CACHED_CHAINS
  {
    if fetches == [] {
    } else {
      var before, f := After(fetches[..|fetches| - 1], ttl), fetches[|fetches| - 1];
      CacheBounded(fetches[..|fetches| - 1], ttl);
      if MayEvict(before, f.key, f.now, ttl, f.victim) {
        StoredFits(before, f.key, f.certs, f.now, ttl, f.victim);
      }
    }
  }

  /** What a store gives up: nothing that is fresh, unless the cache was full of fresh chains and the key
      was new; then one chain, and no older one stays. */
  lemma StoreKeepsFresh<C>(cache: map<string, Chain<C>>, key: string, certs: C, now: int, ttl: int, victim: string, k: string)
    requires MayEvict(cache, key, now, ttl, victim)
    requires k in cache && now - cache[k].fetched < ttl && k != key
    ensures var after := Stored(cache, key, certs, now, ttl, victim);
            && (k in after ==> after[k] == cache[k])
            && (k !in after ==>
                  && k == victim && key !in cache && |Fresh(cache, now, ttl)| >= MAX_CACHED_CHAINS
                  && forall j :: j in after && j != key ==> cache[k].fetched <= after[j].fetched)
  {
  }

  /** What a store leaves: the new chain; all others while there is room or the key is known; and of a full cache
      without the key no stale one. */
  lemma StoreLeaves<C>(cache: map<string, Chain<C>>, key: string, certs: C, now: int, ttl: int, victim: string, k: string)
    requires MayEvict(cache, key, now, ttl, victim)
    ensures var after := Stored(cache, key, certs, now, ttl, victim);
            && key in after && after[key] == Chain(certs, now)
            && (|cache| < 16 || key in cache ==> after == cache[key := Chain(certs, now)])
            && (|cache| >= 16 && key !in cache && k in after && k != key ==> k in cache && now - cache[k].fetched < ttl)
  {
  }

  /** The last fetch of an address that was stored. */
  function Latest<C>(fetches: seq<Fetch<C>>, ttl: int, key: string): Option<Chain<C>> {
    if fetches == [] then None
    else
      var before, f := After(fetches[..|fetches| - 1], ttl), fetches[|fetches| - 1];
      if f.key == key && MayEvict(before, key, f.now, ttl, f.victim) then Some(Chain(f.certs, f.now))
      else Latest(fetches[..|fetches| - 1], ttl, key)
  }

  lemma StoreElsewhere<C>(cache: map<string, Chain<C>>, f: Fetch<C>, ttl: int, key: string)
    requires MayEvict(cache, f.key, f.now, ttl, f.victim) && key != f.key
    requires key in Stored(cache, f.key, f.certs, f.now, ttl, f.victim)
    ensures key in cache && Stored(cache, f.key, f.certs, f.now, ttl, f.victim)[key] == cache[key]
  {
  }

  /** A chain in the cache is the one last fetched for that very address. */
  lemma {:induction false} CachedIsLatest<C>(fetches: seq<Fetch<C>>, ttl: int, key: string)
    requires key in After(fetches, ttl)
    ensures Latest(fetches, ttl, key) == Some(After(fetches, ttl)[key])
  {
    var n := |fetches| - 1;
    var before, f := After(fetches[..n], ttl), fetches[n];
    if MayEvict(before, f.key, f.now, ttl, f.victim) {
      if f.key != key {
        StoreElsewhere(before, f, ttl, key);
        CachedIsLatest(fetches[..n], ttl, key);
      }
    } else {
      CachedIsLatest(fetches[..n], ttl, key);
    }
  }
}
