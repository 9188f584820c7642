/**
 * MapBasedCacheService: a write-back cache of ICacheable objects keyed by the
 * MD5 of their key gene. Each entry carries a pending database operation
 * (CREATE, UPDATE or none); a periodic sweep drops expired entries and saves
 * the pending ones. The clock is a `now` parameter, the database reads are
 * function parameters and the database writes are returned as values.
 */
module CacheService {
  import opened JavaLang
  import opened Md5Hex

  /** An ICacheable: its own data, its key gene, its cache time and its cache key field. */
  datatype Cacheable<D> = Cacheable(data: D, keyGene: Option<string>, cachedTime: int, cacheKey: Option<string>)

  /** CacheableWrapper: the cached object and the database operation still owed for it. */
  datatype Wrapper<D> = Wrapper(target: Cacheable<D>, operation: int)

  /** A call of CacheDBOperator.createCacheable or updateCacheable. */
  datatype DbWrite<D> = Create(created: Cacheable<D>) | Update(updated: Cacheable<D>)

  const NonOperation: int := -1
  const CreateOperation: int := 1
  const UpdateOperation: int := 2

  /** The default expireMillisecond: seven days. */
  const DefaultExpireMillisecond: int := 1000 * 60 * 60 * 24 * 7

  /** AbstractCacheService.calculateKey: the upper-case MD5 hex of the key gene, null for a null gene. */
  function CalculateKey<D>(t: Cacheable<D>, digest: string -> seq<JByte>): (r: Option<string>)
    ensures r.None? <==> t.keyGene.None?
    ensures r.Some? ==> |r.value| == 2 * |digest(t.keyGene.value)|
  {
    Md5EncodeShape(t.keyGene, digest);
    Md5Encode(t.keyGene, digest)
  }

  /** Whether the entry is older than the expiry time at `now`. */
  predicate Expired<D>(t: Cacheable<D>, now: int, expire: int)
  {
    now - t.cachedTime > expire
  }

  /** doDBSaveUpdate: the database write owed for the wrapper, and the wrapper with nothing owed. */
  function SaveUpdate<D>(w: Wrapper<D>): (r: (Option<DbWrite<D>>, Wrapper<D>))
    ensures r.1 == Wrapper(w.target, NonOperation)
    ensures r.0.Some? <==> w.operation == CreateOperation || w.operation == UpdateOperation
    ensures w.operation == CreateOperation ==> r.0 == Some(Create(w.target))
    ensures w.operation == UpdateOperation ==> r.0 == Some(Update(w.target))
  {
    var write :=
      if w.operation == CreateOperation then Some(Create(w.target))
      else if w.operation == UpdateOperation then Some(Update(w.target))
      else None;
    (write, w.(operation := NonOperation))
  }

  /** An unexpired entry after the sweep has looked at it. */
  function Settle<D>(w: Wrapper<D>): Wrapper<D>
  {
    if w.operation > 0 then SaveUpdate(w).1 else w
  }

  /** The write the sweep makes for an unexpired entry. */
  function Owed<D>(w: Wrapper<D>): Option<DbWrite<D>>
  {
    if w.operation > 0 then SaveUpdate(w).0 else None
  }

  /** The map once the sweep has looked at the keys in `done`. */
  function PartlySwept<D>(m: map<string, Wrapper<D>>, now: int, expire: int, done: set<string>): map<string, Wrapper<D>>
  {
    map k | k in m && !(k in done && Expired(m[k].target, now, expire)) :: if k in done then Settle(m[k]) else m[k]
  }

  /** The writes the sweep has made once it has looked at the keys in `done`. */
  function PartWrites<D>(m: map<string, Wrapper<D>>, now: int, expire: int, done: set<string>): map<string, DbWrite<D>>
  {
    map k | k in m && k in done && !Expired(m[k].target, now, expire) && Owed(m[k]).Some? :: Owed(m[k]).value
  }

  /** Looking at one more key: an expired entry goes, another is settled, and its owed write is made. */
  lemma SweepStep<D>(m: map<string, Wrapper<D>>, now: int, expire: int, done: set<string>, key: string)
    requires key in m && key !in done
    ensures key in PartlySwept(m, now, expire, done) && PartlySwept(m, now, expire, done)[key] == m[key]
    ensures Expired(m[key].target, now, expire) ==>
      && PartlySwept(m, now, expire, done + {key}) == PartlySwept(m, now, expire, done) - {key}
      && PartWrites(m, now, expire, done + {key}) == PartWrites(m, now, expire, done)
    ensures !Expired(m[key].target, now, expire) && m[key].operation <= 0 ==>
      && PartlySwept(m, now, expire, done + {key}) == PartlySwept(m, now, expire, done)
      && PartWrites(m, now, expire, done + {key}) == PartWrites(m, now, expire, done)
    ensures !Expired(m[key].target, now, expire) && m[key].operation > 0 ==>
      && PartlySwept(m, now, expire, done + {key}) == PartlySwept(m, now, expire, done)[key := SaveUpdate(m[key]).1]
      && PartWrites(m, now, expire, done + {key}) ==
           if SaveUpdate(m[key]).0.Some? then PartWrites(m, now, expire, done)[key := SaveUpdate(m[key]).0.value]
           else PartWrites(m, now, expire, done)
  {
    var before := PartlySwept(m, now, expire, done);
    var after := PartlySwept(m, now, expire, done + {key});
    if Expired(m[key].target, now, expire) {
      assert after == before - {key};
    } else if m[key].operation <= 0 {
      assert after == before;
    } else {
      assert after == before[key := SaveUpdate(m[key]).1];
    }
  }

  /** The map after a full sweep. */
  function Swept<D>(m: map<string, Wrapper<D>>, now: int, expire: int): map<string, Wrapper<D>>
  {
    PartlySwept(m, now, expire, m.Keys)
  }

  /** The writes of a full sweep. */
  function SweepWrites<D>(m: map<string, Wrapper<D>>, now: int, expire: int): map<string, DbWrite<D>>
  {
    PartWrites(m, now, expire, m.Keys)
  }

  /** After a sweep nothing is expired and nothing is owed to the database, and the unexpired objects stay. */
  lemma SweptSettles<D>(m: map<string, Wrapper<D>>, now: int, expire: int)
    ensures forall k :: k in Swept(m, now, expire) <==> k in m && !Expired(m[k].target, now, expire)
    ensures forall k :: k in Swept(m, now, expire) ==>
      Swept(m, now, expire)[k].target == m[k].target && Swept(m, now, expire)[k].operation <= 0
    ensures forall k :: k in Swept(m, now, expire) && m[k].operation <= 0 ==> Swept(m, now, expire)[k] == m[k]
  {
  }

  /** Exactly the unexpired entries that owe CREATE or UPDATE are written, each with its own target. */
  lemma SweepWritesOwed<D>(m: map<string, Wrapper<D>>, now: int, expire: int)
    ensures forall k :: k in SweepWrites(m, now, expire) <==>
      k in m && !Expired(m[k].target, now, expire) && m[k].operation in {CreateOperation, UpdateOperation}
    ensures forall k :: k in SweepWrites(m, now, expire) ==>
      SweepWrites(m, now, expire)[k] == if m[k].operation == CreateOperation then Create(m[k].target) else Update(m[k].target)
  {
  }

  /** A second sweep at the same time changes nothing and writes nothing. */
  lemma SweepIdempotent<D>(m: map<string, Wrapper<D>>, now: int, expire: int)
    ensures Swept(Swept(m, now, expire), now, expire) == Swept(m, now, expire)
    ensures SweepWrites(Swept(m, now, expire), now, expire) == map[]
  {
    var s := Swept(m, now, expire);
    SweptSettles(m, now, expire);
    assert forall k :: k in s ==> s[k].operation <= 0 && !Expired(s[k].target, now, expire);
    SweptSettles(s, now, expire);
    SweepWritesOwed(s, now, expire);
  }

  /** Whether refresh fails at list[i]: an unexpired object whose key is null. */
  predicate BadKeyAt<D>(list: seq<Cacheable<D>>, i: int, now: int, expire: int, digest: string -> seq<JByte>)
    requires 0 <= i < |list|
  {
    now - list[i].cachedTime <= expire && CalculateKey(list[i], digest).None?
  }

  /** The map refresh builds: each unexpired object under its key, with no operation owed; later objects win. */
  function Loaded<D>(list: seq<Cacheable<D>>, now: int, expire: int, digest: string -> seq<JByte>): map<string, Wrapper<D>>
  {
    if list == [] then map[]
    else
      var m := Loaded(list[..|list| - 1], now, expire, digest);
      var t := list[|list| - 1];
      var key := CalculateKey(t, digest);
      if now - t.cachedTime <= expire && key.Some? then m[key.value := Wrapper(t, NonOperation)] else m
  }

  /** Loading one more object: it is cached under its key when it is unexpired and has one. */
  lemma LoadedStep<D>(list: seq<Cacheable<D>>, i: nat, now: int, expire: int, digest: string -> seq<JByte>)
    requires i < |list|
    ensures var m := Loaded(list[..i], now, expire, digest);
      var key := CalculateKey(list[i], digest);
      Loaded(list[..i + 1], now, expire, digest) ==
        if now - list[i].cachedTime <= expire && key.Some? then m[key.value := Wrapper(list[i], NonOperation)] else m
  {
    assert list[..i + 1][..i] == list[..i];
  }

  /** No bad key among the first i + 1 objects, once object i is not one. */
  lemma KeyedUpTo<D>(list: seq<Cacheable<D>>, i: nat, now: int, expire: int, digest: string -> seq<JByte>)
    requires i < |list| && forall j :: 0 <= j < i ==> !BadKeyAt(list, j, now, expire, digest)
    requires now - list[i].cachedTime <= expire ==> CalculateKey(list[i], digest).Some?
    ensures forall j :: 0 <= j < i + 1 ==> !BadKeyAt(list, j, now, expire, digest)
  {
  }

  /** Every entry refresh loads is an unexpired object of the list, under its own key, owing nothing. */
  lemma {:induction false} LoadedEntries<D>(list: seq<Cacheable<D>>, now: int, expire: int, digest: string -> seq<JByte>)
    ensures forall k :: k in Loaded(list, now, expire, digest) ==>
      var w := Loaded(list, now, expire, digest)[k];
      && w.operation == NonOperation && !Expired(w.target, now, expire)
      && w.target in list && CalculateKey(w.target, digest) == Some(k)
  {
    if list != [] {
      LoadedEntries(list[..|list| - 1], now, expire, digest);
      assert forall t :: t in list[..|list| - 1] ==> t in list;
    }
  }

  /** Every unexpired object with a key is loaded. */
  lemma {:induction false} LoadedKeys<D>(list: seq<Cacheable<D>>, now: int, expire: int, digest: string -> seq<JByte>, i: int)
    requires 0 <= i < |list| && now - list[i].cachedTime <= expire && CalculateKey(list[i], digest).Some?
    ensures CalculateKey(list[i], digest).value in Loaded(list, now, expire, digest)
  {
    if i < |list| - 1 {
      LoadedKeys(list[..|list| - 1], now, expire, digest, i);
    }
  }

  /** A sweep at the time of the refresh neither drops nor writes anything it loaded. */
  lemma LoadedSweep<D>(list: seq<Cacheable<D>>, now: int, expire: int, digest: string -> seq<JByte>)
    ensures Swept(Loaded(list, now, expire, digest), now, expire) == Loaded(list, now, expire, digest)
    ensures SweepWrites(Loaded(list, now, expire, digest), now, expire) == map[]
  {
    var m := Loaded(list, now, expire, digest);
    LoadedEntries(list, now, expire, digest);
    SweptSettles(m, now, expire);
    SweepWritesOwed(m, now, expire);
  }

  /** MapBasedCacheService. */
  class MapCacheService<D> {
    var cacheMap: map<string, Wrapper<D>>
    var expireMillisecond: int
    /** MessageDigest "MD5" over the platform bytes of a string. */
    const digest: string -> seq<JByte>

    constructor (digest: string -> seq<JByte>)
      ensures cacheMap == map[] && expireMillisecond == DefaultExpireMillisecond && this.digest == digest
    {
      cacheMap := map[];
      expireMillisecond := DefaultExpireMillisecond;
      this.digest := digest;
    }

    /** setExpireMillisecond. */
    method SetExpireMillisecond(expire: int)
      modifies this
      ensures expireMillisecond == expire && cacheMap == old(cacheMap)
    {
      expireMillisecond := expire;
    }

    /** isCached as written: ConcurrentHashMap.contains tests the values, and no wrapper equals a String. */
    predicate IsCachedAsWritten(key: string)
      reads this
    {
      exists k :: k in cacheMap && WrapperEqualsString(cacheMap[k], key)
    }

    /** isCached as intended: whether the key has an entry. */
    predicate IsCached(key: string)
      reads this
    {
      key in cacheMap
    }

    /** deleteByKey: the key no longer has an entry, the others are kept; the answer is always true. */
    method DeleteByKey(key: Option<string>) returns (r: Result<bool>)
      modifies this
      ensures key.None? ==> r == Throws(NullPointerException) && cacheMap == old(cacheMap)
      ensures key.Some? ==> r == Ok(true) && cacheMap == old(cacheMap) - {key.value} && !IsCached(key.value)
      ensures expireMillisecond == old(expireMillisecond)
    {
      if key.None? {
        return Throws(NullPointerException);
      }
      cacheMap := cacheMap - {key.value};
      r := Ok(true);
    }

    /**
     * writeObject: stamps the object with `now` and its key and caches it under
     * that key with CREATE owed, replacing any entry there; a null key gene
     * gives a null key, which the map refuses.
     */
    method WriteObject(t: Cacheable<D>, now: int) returns (r: Result<string>)
      modifies this
      ensures CalculateKey(t, digest).None? ==> r == Throws(NullPointerException) && cacheMap == old(cacheMap)
      ensures CalculateKey(t, digest).Some? ==>
        var key := CalculateKey(t, digest).value;
        && r == Ok(key) && IsCached(key)
        && cacheMap == old(cacheMap)[key := Wrapper(t.(cachedTime := now, cacheKey := Some(key)), CreateOperation)]
      ensures expireMillisecond == old(expireMillisecond)
    {
      var key := CalculateKey(t, digest);
      var stamped := t.(cachedTime := now, cacheKey := key);
      if key.None? {
        return Throws(NullPointerException);
      }
      cacheMap := cacheMap[key.value := Wrapper(stamped, CreateOperation)];
      r := Ok(key.value);
    }

    /**
     * readObject: a hit returns the cached object, restamped with `now` and
     * owing UPDATE when resetExpireTime is set; a miss loads the object by its
     * cache key and caches a non-null one, stamped and owing UPDATE.
     */
    method ReadObject(key: Option<string>, resetExpireTime: bool, now: int, load: string -> Option<Cacheable<D>>)
      returns (r: Result<Option<Cacheable<D>>>)
      modifies this
      ensures key.None? ==> r == Throws(NullPointerException) && cacheMap == old(cacheMap)
      ensures key.Some? && key.value in old(cacheMap) && !resetExpireTime ==>
        r == Ok(Some(old(cacheMap)[key.value].target)) && cacheMap == old(cacheMap)
      ensures key.Some? && key.value in old(cacheMap) && resetExpireTime ==>
        var t := old(cacheMap)[key.value].target.(cachedTime := now);
        r == Ok(Some(t)) && cacheMap == old(cacheMap)[key.value := Wrapper(t, UpdateOperation)]
      ensures key.Some? && key.value !in old(cacheMap) && load(key.value).None? ==>
        r == Ok(None) && cacheMap == old(cacheMap)
      ensures key.Some? && key.value !in old(cacheMap) && load(key.value).Some? ==>
        var t := load(key.value).value.(cachedTime := now);
        r == Ok(Some(t)) && cacheMap == old(cacheMap)[key.value := Wrapper(t, UpdateOperation)]
      ensures expireMillisecond == old(expireMillisecond)
    {
      if key.None? {
        return Throws(NullPointerException);
      }
      if key.value !in cacheMap {
        var target := load(key.value);
        if target.Some? {
          var stamped := target.value.(cachedTime := now);
          cacheMap := cacheMap[key.value := Wrapper(stamped, UpdateOperation)];
          return Ok(Some(stamped));
        }
        return Ok(target);
      }
      var w := cacheMap[key.value];
      var t := w.target;
      if resetExpireTime {
        t := t.(cachedTime := now);
        cacheMap := cacheMap[key.value := Wrapper(t, UpdateOperation)];
      }
      r := Ok(Some(t));
    }

    /**
     * The body of the scheduled expiry task at time `now`: visits every key,
     * drops an expired entry without saving it, and saves and settles an
     * entry that owes an operation. The writes are returned by key.
     */
    method Sweep(now: int) returns (saved: map<string, DbWrite<D>>)
      modifies this
      ensures cacheMap == Swept(old(cacheMap), now, expireMillisecond)
      ensures saved == SweepWrites(old(cacheMap), now, expireMillisecond)
      ensures expireMillisecond == old(expireMillisecond)
    {
      var m := cacheMap;
      var expire := expireMillisecond;
      var cur := m;
      var todo := m.Keys;
      ghost var done: set<string> := {};
      saved := map[];
      while todo != {}
        invariant expireMillisecond == expire && todo <= m.Keys && done == m.Keys - todo
        invariant cur == PartlySwept(m, now, expire, done)
        invariant saved == PartWrites(m, now, expire, done)
        decreases |todo|
      {
        var key :| key in todo;
        SweepStep(m, now, expire, done, key);
        var w := cur[key];
        if now - w.target.cachedTime > expire {
          cur := cur - {key};
        } else if w.operation > 0 {
          var (write, settled) := SaveUpdate(w);
          cur := cur[key := settled];
          if write.Some? {
            saved := saved[key := write.value];
          }
        }
        todo := todo - {key};
        done := done + {key};
      }
      cacheMap := cur;
    }

    /**
     * refresh: empties the cache and caches each unexpired object of `all`
     * (the rows loadAllCacheable returns) under its key with no operation
     * owed. An unexpired object with a null key stops it with the objects
     * before it cached.
     */
    method Refresh(now: int, all: seq<Cacheable<D>>) returns (r: Result<()>)
      modifies this
      ensures r.Ok? <==> forall i :: 0 <= i < |all| ==> !BadKeyAt(all, i, now, expireMillisecond, digest)
      ensures r.Ok? ==> cacheMap == Loaded(all, now, expireMillisecond, digest)
      ensures r.Throws? ==>
        && r == Throws(NullPointerException)
        && exists i :: 0 <= i < |all| && BadKeyAt(all, i, now, expireMillisecond, digest) &&
             cacheMap == Loaded(all[..i], now, expireMillisecond, digest)
      ensures expireMillisecond == old(expireMillisecond)
    {
      var expire := expireMillisecond;
      var cur: map<string, Wrapper<D>> := map[];
      var i := 0;
      while i < |all|
        invariant 0 <= i <= |all| && expireMillisecond == expire
        invariant forall j :: 0 <= j < i ==> !BadKeyAt(all, j, now, expire, digest)
        invariant cur == Loaded(all[..i], now, expire, digest)
      {
        var tt := all[i];
        LoadedStep(all, i, now, expire, digest);
        if now - tt.cachedTime <= expire {
          var key := CalculateKey(tt, digest);
          if key.None? {
            cacheMap := cur;
            assert BadKeyAt(all, i, now, expireMillisecond, digest);
            return Throws(NullPointerException);
          }
          cur := cur[key.value := Wrapper(tt, NonOperation)];
        }
        KeyedUpTo(all, i, now, expire, digest);
        i := i + 1;
      }
      assert all[..i] == all;
      cacheMap := cur;
      r := Ok(());
    }
  }

  /** Object.equals between a CacheableWrapper and a String: never the same object. */
  predicate WrapperEqualsString<D>(w: Wrapper<D>, s: string)
  {
    false
  }

  /** isCached as written misses a key that is cached. */
  lemma IsCachedAsWrittenMisses<D>(c: MapCacheService<D>, key: string)
    requires key in c.cacheMap
    ensures !c.IsCachedAsWritten(key) && c.IsCached(key)
  {
  }
}
