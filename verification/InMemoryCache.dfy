/** The in-memory store: entries that have not expired, by encoded key. */
module InMemoryCache {
  import opened Common
  import opened KeyCodec

  class InMemoryCache {
    const keyHash: KeyHash
    var items: map<Bytes, Bytes>

    constructor (keyHash: KeyHash, items: map<Bytes, Bytes>)
      ensures this.keyHash == keyHash && this.items == items
    {
      this.keyHash, this.items := keyHash, items;
    }

    /** in_memory_cache.go lines 50 to 62. */
    method Get(key: Bytes) returns (value: Option<Bytes>)
      ensures value == if key in items then Some(items[key]) else None
    {
      value := if key in items then Some(items[key]) else None;
    }

    /** in_memory_cache.go lines 74 to 82; the time to live only matters to expiry. */
    method Set(key: Bytes, value: Bytes)
      modifies this
      ensures items == old(items)[key := value]
    {
      items := items[key := value];
    }

    /** in_memory_cache.go lines 84 to 87, and what expiry does to one entry. */
    method Invalidate(key: Bytes)
      modifies this
      ensures items == old(items) - {key}
    {
      items := items - {key};
    }

    /** Every stored key can be decoded. */
    predicate AllDecodable()
      reads this
    {
      forall k :: k in items ==> DecodeKey(keyHash, k).Some?
    }

    /** in_memory_cache.go lines 93 to 113: the keys come in any order, and a key that cannot be decoded ends the
        loop with an error. */
    method InvalidateByMatch(keyMatcher: Bytes -> bool) returns (ok: bool)
      modifies this
      ensures ok <==> old(AllDecodable())
      ensures ok ==> items == map k | k in old(items) && !keyMatcher(DecodeKey(keyHash, k).value) :: old(items)[k]
      ensures items.Keys <= old(items).Keys && forall k :: k in items ==> items[k] == old(items)[k]
      ensures !Decodable(keyHash) ==> items == old(items)
    {
      var todo := items.Keys;
      ghost var was := items;
      while todo != {}
        invariant todo <= was.Keys
        invariant forall k :: k in was && k !in todo ==> DecodeKey(keyHash, k).Some?
        invariant items == map k | k in was && (k in todo || !keyMatcher(DecodeKey(keyHash, k).value)) :: was[k]
        decreases todo
      {
        var key :| key in todo;
        var decodedKey := DecodeKey(keyHash, key);
        if decodedKey.None? {
          if !Decodable(keyHash) {
            NothingDecoded(was, todo);
          }
          return false;
        }
        todo := todo - {key};
        if keyMatcher(decodedKey.value) {
          Invalidate(key);
        }
      }
      ok := true;
    }

    lemma NothingDecoded(was: map<Bytes, Bytes>, todo: set<Bytes>)
      requires !Decodable(keyHash) && todo <= was.Keys
      requires forall k :: k in was && k !in todo ==> DecodeKey(keyHash, k).Some?
      ensures todo == was.Keys
    {
    }
  }

  /** All keys were made by EncodeKey, as CacheKey makes them. */
  ghost predicate MadeByEncodeKey(hash: KeyHash, sha256: Bytes -> Bytes, sha512: Bytes -> Bytes,
                                  items: map<Bytes, Bytes>) {
    forall k :: k in items ==> exists key :: k == EncodeKey(hash, sha256, sha512, key)
  }

  /** On such a store, in a decodable mode, exactly the entries whose original key the matcher accepts are removed;
      in the SHA modes a non-empty store is left as it is and an error is returned. */
  method InvalidateMatching(cache: InMemoryCache, keyMatcher: Bytes -> bool,
                            ghost sha256: Bytes -> Bytes, ghost sha512: Bytes -> Bytes) returns (ok: bool)
    requires MadeByEncodeKey(cache.keyHash, sha256, sha512, cache.items)
    modifies cache
    ensures Decodable(cache.keyHash) ==> ok
    ensures Decodable(cache.keyHash) ==>
              forall key :: var k := EncodeKey(cache.keyHash, sha256, sha512, key);
                k in cache.items <==> k in old(cache.items) && !keyMatcher(key)
    ensures forall k :: k in cache.items ==> k in old(cache.items) && cache.items[k] == old(cache.items)[k]
    ensures !Decodable(cache.keyHash) ==> cache.items == old(cache.items) && (ok <==> old(cache.items) == map[])
  {
    ghost var was := cache.items;
    forall k | k in was
      ensures DecodeKey(cache.keyHash, k).Some? <==> Decodable(cache.keyHash)
    {
      var key :| k == EncodeKey(cache.keyHash, sha256, sha512, key);
      KeyRoundTrip(cache.keyHash, sha256, sha512, key);
    }
    ok := cache.InvalidateByMatch(keyMatcher);
    forall key | Decodable(cache.keyHash)
      ensures var k := EncodeKey(cache.keyHash, sha256, sha512, key);
              k in cache.items <==> k in was && !keyMatcher(key)
    {
      KeyRoundTrip(cache.keyHash, sha256, sha512, key);
    }
    if was != map[] {
      assert exists k :: k in was;
    }
  }
}
