/**
 AppStore as one caller at a time sees it: the cache is invisible. Each Authenticate returns
 what a direct lookup would, through any mix of writes, expiry and eviction.
 */
module AppStore {
  import opened Wrappers
  import opened AppRegistry
  import opened AuthProtocol
  import opened AuthStaleness

  datatype StoreError = DatabaseError | AppNotFound

  // Owner of rows in `local_asr_config` and `vocabulary_profile`.
  datatype ScopedRow = ScopedRow(app: AppId, tag: nat)

  // The tables the store touches. A statement that reports an error has changed nothing.
  class Database {
    var apps: Registry
    var configRows: set<ScopedRow>
    var vocabularyRows: set<ScopedRow>
    const countsMatched: bool

    constructor (apps: Registry, countsMatched: bool)
      ensures this.apps == apps && configRows == {} && vocabularyRows == {} && this.countsMatched == countsMatched
    {
      this.apps, configRows, vocabularyRows := apps, {}, {};
      this.countsMatched := countsMatched;
    }

    // One INSERT or UPDATE of app_registry. `fails` is the driver's verdict.
    method Exec(w: Write, fails: bool) returns (r: Result<nat, StoreError>)
      requires !w.Delete?
      modifies this`apps
      ensures r.Err? <==> fails || Duplicate(old(apps), w)
      ensures r.Err? ==> r.error == DatabaseError && apps == old(apps)
      ensures r.Ok? ==> apps == After(old(apps), w) && r.value == RowsAffected(old(apps), w, countsMatched)
    {
      if fails || Duplicate(apps, w) {
        return Err(DatabaseError);
      }
      r := Ok(RowsAffected(apps, w, countsMatched));
      apps := After(apps, w);
    }

    // The transaction that deletes an app: rolled back when no app row was affected.
    method DeleteApp(app: AppId, fails: bool) returns (r: Result<(), StoreError>)
      modifies this`apps, this`configRows, this`vocabularyRows
      ensures r == if fails then Err(DatabaseError) else if app !in old(apps) then Err(AppNotFound) else Ok(())
      ensures r.Ok? ==> apps == After(old(apps), Write.Delete(app))
      ensures r.Ok? ==> configRows == Without(old(configRows), app)
      ensures r.Ok? ==> vocabularyRows == Without(old(vocabularyRows), app)
      ensures r.Err? ==> unchanged(this)
    {
      if fails {
        return Err(DatabaseError);
      }
      var config := Without(configRows, app);
      var vocabulary := Without(vocabularyRows, app);
      if RowsAffected(apps, Write.Delete(app), countsMatched) == 0 {
        return Err(AppNotFound);
      }
      configRows, vocabularyRows := config, vocabulary;
      apps := After(apps, Write.Delete(app));
      r := Ok(());
    }
  }

  function Without(rows: set<ScopedRow>, app: AppId): (r: set<ScopedRow>)
    ensures forall x :: x in r <==> x in rows && x.app != app
  {
    set x | x in rows && x.app != app
  }

  class AppStore {
    const db: Database
    const ttl: int
    const maxSize: int
    var cache: Cache

    // Every entry, expired or not, is what the registry says now.
    ghost predicate Valid()
      reads this, db
    {
      && (forall k | k in cache :: Lookup(db.apps, k) == Some(cache[k].info))
      && |cache| <= Max(1, maxSize)
    }

    constructor (db: Database, ttlSeconds: int)
      ensures Valid() && this.db == db && cache == map[]
      ensures ttl == ttlSeconds * 1_000_000_000 && maxSize == 10000
    {
      this.db := db;
      ttl := ttlSeconds * 1_000_000_000;
      maxSize := 10000;
      cache := map[];
    }

    // `checkedAt` and `filledAt` are the two readings of the clock; `fails` is the driver's.
    method Authenticate(key: KeyHash, checkedAt: int, filledAt: int, fails: bool)
        returns (r: Result<Option<AppInfo>, StoreError>)
      requires Valid()
      modifies this`cache
      ensures Valid()
      ensures r.Ok? ==> r.value == Lookup(db.apps, key)
      ensures r.Err? <==> fails && !Live(old(cache), key, checkedAt)
      ensures Live(old(cache), key, checkedAt) || r.Err? || r.value.None? ==> cache == old(cache)
      ensures !Live(old(cache), key, checkedAt) && r.Ok? && r.value.Some? ==>
        exists victim :: EvictionChoice(Config(ttl, maxSize), old(cache), victim) &&
          cache == Evict(old(cache), victim)[key := Entry(r.value.value, filledAt + ttl)]
    {
      if key in cache && checkedAt < cache[key].expiresAt {
        return Ok(Some(cache[key].info));
      }
      if fails {
        return Err(DatabaseError);
      }
      var found := Lookup(db.apps, key);
      if found.None? {
        return Ok(None);
      }
      ghost var victim := Fill(key, found.value, filledAt);
      r := Ok(found);
    }

    // The section under the write lock.
    method Fill(key: KeyHash, info: AppInfo, filledAt: int) returns (ghost victim: Option<KeyHash>)
      modifies this`cache
      ensures EvictionChoice(Config(ttl, maxSize), old(cache), victim)
      ensures cache == Evict(old(cache), victim)[key := Entry(info, filledAt + ttl)]
      ensures |old(cache)| <= Max(1, maxSize) ==> |cache| <= Max(1, maxSize)
      ensures |old(cache)| < maxSize ==> cache == old(cache)[key := Entry(info, filledAt + ttl)]
    {
      victim := None;
      if |cache| >= maxSize {
        victim := EvictOldest();
      }
      InsertGrowsByAtMostOne(cache, key, Entry(info, filledAt + ttl));
      cache := cache[key := Entry(info, filledAt + ttl)];
    }

    // Whatever order the map is walked in, the entry removed expires first: a live entry
    // goes only when every entry is live.
    method EvictOldest() returns (ghost victim: Option<KeyHash>)
      modifies this`cache
      ensures cache == Evict(old(cache), victim)
      ensures old(cache) == map[] ==> victim.None?
      ensures old(cache) != map[] ==> victim.Some? && Oldest(old(cache), victim.value) && |cache| == |old(cache)| - 1
      ensures forall now :: victim.Some? && Live(old(cache), victim.value, now) ==>
        forall k | k in old(cache) :: Live(old(cache), k, now)
    {
      var oldestKey: string, oldestTime, first := "", 0, true;
      var rest := cache.Keys;
      while rest != {}
        invariant rest <= cache.Keys && cache == old(cache)
        invariant first <==> rest == cache.Keys && oldestKey == ""
        invariant !first ==> oldestKey in cache && oldestKey !in rest && cache[oldestKey].expiresAt == oldestTime
        invariant !first ==> forall k | k in cache.Keys - rest :: oldestTime <= cache[k].expiresAt
        decreases rest
      {
        var k :| k in rest;
        if first || cache[k].expiresAt < oldestTime {
          oldestKey, oldestTime, first := k, cache[k].expiresAt, false;
        }
        rest := rest - {k};
      }
      victim := None;
      if oldestKey != "" {
        victim := Some(oldestKey);
        cache := cache - {oldestKey};
        assert cache.Keys == old(cache).Keys - {oldestKey};
        assert |cache| == |cache.Keys| && |old(cache)| == |old(cache).Keys|;
      }
    }

    method InvalidateCache()
      modifies this`cache
      ensures cache == map[]
    {
      cache := map[];
    }

    // A new row needs no invalidation: misses are never cached.
    method Create(app: AppId, key: KeyHash, fails: bool) returns (r: Result<(), StoreError>)
      requires Valid()
      modifies db`apps
      ensures Valid() && cache == old(cache)
      ensures r.Ok? <==> !fails && !Duplicate(old(db.apps), Write.Create(app, key))
      ensures r.Ok? <==> !fails && app !in old(db.apps) && Lookup(old(db.apps), key).None?
      ensures db.apps == if r.Ok? then After(old(db.apps), Write.Create(app, key)) else old(db.apps)
      ensures r.Ok? ==> app in db.apps && db.apps[app] == AppRow(key, 1) && Lookup(db.apps, key) == Some(AppInfo(app, 1))
      ensures OthersKept(old(db.apps), db.apps, app)
    {
      DuplicateIs(db.apps, Write.Create(app, key));
      OthersAreKept(db.apps, Write.Create(app, key));
      var res := db.Exec(Write.Create(app, key), fails);
      if res.Ok? {
        LookupIs(db.apps, app);
        forall k | k in cache ensures Lookup(db.apps, k) == Some(cache[k].info) {
          LookupIs(db.apps, cache[k].info.appId);
        }
      }
      r := if res.Ok? then Ok(()) else Err(res.error);
    }

    // The shared tail of UpdateStatus and UpdateAPIKey.
    method UpdateRow(w: Write, fails: bool) returns (r: Result<(), StoreError>)
      requires Valid() && (w.UpdateStatus? || w.UpdateKey?)
      modifies db`apps, this`cache
      ensures Valid()
      ensures db.apps == if fails then old(db.apps) else After(old(db.apps), w)
      ensures r == if fails || Duplicate(old(db.apps), w) then Err(DatabaseError)
                   else if RowsAffected(old(db.apps), w, db.countsMatched) == 0 then Err(AppNotFound)
                   else Ok(())
      ensures cache == if r.Ok? then map[] else old(cache)
    {
      var res := db.Exec(w, fails);
      if res.Err? {
        return Err(res.error);
      }
      if res.value == 0 {
        return Err(AppNotFound);
      }
      InvalidateCache();
      r := Ok(());
    }

    method UpdateStatus(app: AppId, status: int, fails: bool) returns (r: Result<(), StoreError>)
      requires Valid()
      modifies db`apps, this`cache
      ensures Valid()
      ensures db.apps == if fails then old(db.apps) else After(old(db.apps), Write.UpdateStatus(app, status))
      ensures fails ==> r == Err(DatabaseError) && cache == old(cache)
      ensures r.Ok? ==> cache == map[] && app in old(db.apps) && app in db.apps
      ensures r.Ok? ==> db.apps[app] == AppRow(old(db.apps)[app].keyHash, status)
      ensures r.Ok? ==> Lookup(db.apps, db.apps[app].keyHash) == Some(AppInfo(app, status))
      ensures OthersKept(old(db.apps), db.apps, app)
      ensures !fails && r.Err? ==> r.error == AppNotFound && db.apps == old(db.apps) && cache == old(cache)
      // Exactly when a row that exists is nevertheless reported as not found: the driver counts
      // changed rows (its default) and the status is already right.
      ensures r == Err(AppNotFound) <==>
        !fails && (app !in old(db.apps) || (!db.countsMatched && old(db.apps)[app].status == status))
    {
      StatusUnchanged(db.apps, app, status);
      OthersAreKept(db.apps, Write.UpdateStatus(app, status));
      r := UpdateRow(Write.UpdateStatus(app, status), fails);
      if r.Ok? {
        LookupIs(db.apps, app);
      }
    }

    method UpdateAPIKey(app: AppId, newKey: KeyHash, fails: bool) returns (r: Result<(), StoreError>)
      requires Valid()
      modifies db`apps, this`cache
      ensures Valid()
      ensures db.apps == if r.Ok? then After(old(db.apps), Write.UpdateKey(app, newKey)) else old(db.apps)
      ensures r.Ok? ==> cache == map[] && app in old(db.apps) && app in db.apps
      ensures r.Ok? ==> db.apps[app] == AppRow(newKey, old(db.apps)[app].status)
      ensures r.Ok? ==> Lookup(db.apps, newKey) == Some(AppInfo(app, old(db.apps)[app].status))
      ensures OthersKept(old(db.apps), db.apps, app)
      ensures r.Ok? && old(db.apps)[app].keyHash != newKey ==> Lookup(db.apps, old(db.apps)[app].keyHash) == None
      ensures r.Err? ==> cache == old(cache)
      // A key that is taken, an unknown app and (by default) the key the app already has.
      ensures r == Err(DatabaseError) <==> fails || Duplicate(old(db.apps), Write.UpdateKey(app, newKey))
      ensures r == Err(DatabaseError) <==>
        fails || (app in old(db.apps) && Lookup(old(db.apps), newKey).Some? && Lookup(old(db.apps), newKey).value.appId != app)
      ensures r == Err(AppNotFound) <==>
        !fails && !Duplicate(old(db.apps), Write.UpdateKey(app, newKey)) &&
        (app !in old(db.apps) || (!db.countsMatched && old(db.apps)[app].keyHash == newKey))
    {
      ghost var w := Write.UpdateKey(app, newKey);
      DuplicateIs(db.apps, w);
      OthersAreKept(db.apps, w);
      if !Duplicate(db.apps, w) {
        KeyUnchanged(db.apps, app, newKey);
        if app in db.apps && db.apps[app].keyHash != newKey { KeyIsFreed(db.apps, w); }
      }
      r := UpdateRow(Write.UpdateKey(app, newKey), fails);
      if r.Ok? {
        LookupIs(db.apps, app);
      }
    }

    // All three tables or none; an unknown app leaves even stray rows in place.
    method Delete(app: AppId, fails: bool) returns (r: Result<(), StoreError>)
      requires Valid()
      modifies db`apps, db`configRows, db`vocabularyRows, this`cache
      ensures Valid()
      ensures r == if fails then Err(DatabaseError) else if app !in old(db.apps) then Err(AppNotFound) else Ok(())
      ensures r.Ok? ==> cache == map[] && db.apps == After(old(db.apps), Write.Delete(app))
      ensures r.Ok? ==> db.configRows == Without(old(db.configRows), app)
      ensures r.Ok? ==> db.vocabularyRows == Without(old(db.vocabularyRows), app)
      ensures r.Ok? ==> app in old(db.apps) && app !in db.apps && Lookup(db.apps, old(db.apps)[app].keyHash) == None
      ensures OthersKept(old(db.apps), db.apps, app)
      ensures r.Err? ==> unchanged(db) && cache == old(cache)
    {
      OthersAreKept(db.apps, Write.Delete(app));
      if app in db.apps { KeyIsFreed(db.apps, Write.Delete(app)); }
      r := db.DeleteApp(app, fails);
      if r.Ok? {
        InvalidateCache();
      }
    }
  }
}
