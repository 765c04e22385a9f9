/**
 The `app_registry` table as the two processes see it: rows keyed by `app_id`
 (unique), with `api_key` unique as well, and the four statements that change it.
 */
module AppRegistry {
  import opened Wrappers

  type AppId = string

  // A hex-encoded SHA-256 digest; equal digests stand for equal API keys.
  type KeyHash = s: string | |s| == 64 witness seq(64, _ => '0')

  datatype AppRow = AppRow(keyHash: KeyHash, status: int)

  // What Authenticate hands to the middleware.
  datatype AppInfo = AppInfo(appId: AppId, status: int)

  ghost predicate UniqueKeys(rows: map<AppId, AppRow>) {
    forall a, b | a in rows && b in rows && rows[a].keyHash == rows[b].keyHash :: a == b
  }

  type Registry = rows: map<AppId, AppRow> | UniqueKeys(rows) witness map[]

  predicate KeyInUse(db: Registry, h: KeyHash) {
    exists a :: a in db && db[a].keyHash == h
  }

  // SELECT app_id, status FROM app_registry WHERE api_key = ?
  function Lookup(db: Registry, h: KeyHash): (r: Option<AppInfo>)
    ensures r.Some? <==> KeyInUse(db, h)
    ensures r.Some? ==> r.value.appId in db && db[r.value.appId] == AppRow(h, r.value.status)
  {
    if KeyInUse(db, h) then
      var a :| a in db && db[a].keyHash == h;
      Some(AppInfo(a, db[a].status))
    else
      None
  }

  datatype Write =
    | Create(app: AppId, key: KeyHash)
    | UpdateStatus(app: AppId, status: int)
    | UpdateKey(app: AppId, key: KeyHash)
    | Delete(app: AppId)

  // The unique keys reject the statement and nothing is stored.
  predicate Duplicate(db: Registry, w: Write) {
    match w
    case Create(app, key) => app in db || KeyInUse(db, key)
    case UpdateKey(app, key) => app in db && exists b :: b in db && b != app && db[b].keyHash == key
    case _ => false
  }

  function After(db: Registry, w: Write): Registry {
    if Duplicate(db, w) then db else
    match w
    case Create(app, key) => db[app := AppRow(key, 1)]
    case UpdateStatus(app, status) => if app in db then db[app := db[app].(status := status)] else db
    case UpdateKey(app, key) => if app in db then db[app := db[app].(keyHash := key)] else db
    case Delete(app) => db - {app}
  }

  // RowsAffected of UPDATE and DELETE: rows matched, or (the MySQL default) rows changed.
  function RowsAffected(db: Registry, w: Write, countsMatched: bool): nat {
    if w.app in db && (countsMatched || After(db, w) != db) then 1 else 0
  }

  // The updates that leave the table as it is.
  lemma StatusUnchanged(db: Registry, app: AppId, status: int)
    ensures After(db, UpdateStatus(app, status)) == db <==> app !in db || db[app].status == status
  {
    if app in db && db[app].status == status {
      assert db[app := db[app].(status := status)] == db;
    }
  }

  lemma KeyUnchanged(db: Registry, app: AppId, key: KeyHash)
    requires !Duplicate(db, UpdateKey(app, key))
    ensures After(db, UpdateKey(app, key)) == db <==> app !in db || db[app].keyHash == key
  {
    if app in db && db[app].keyHash == key {
      assert db[app := db[app].(keyHash := key)] == db;
    }
  }

  // What a lookup finds is decided by the rows alone, whichever row the search meets first.
  lemma LookupIs(db: Registry, a: AppId)
    requires a in db
    ensures Lookup(db, db[a].keyHash) == Some(AppInfo(a, db[a].status))
  {
    assert KeyInUse(db, db[a].keyHash);
  }

  // ---- what a statement does, row by row ----

  // Every app but one is in both tables or in neither, with the same row, and its key finds it
  // in the one as in the other.
  ghost predicate OthersKept(before: Registry, after: Registry, app: AppId) {
    && before - {app} == after - {app}
    && forall b | b in before && b != app :: Lookup(after, before[b].keyHash) == Lookup(before, before[b].keyHash)
  }

  lemma OthersAreKept(db: Registry, w: Write)
    ensures OthersKept(db, After(db, w), w.app)
  {
    var after := After(db, w);
    assert db - {w.app} == after - {w.app};
    forall b | b in db && b != w.app
      ensures Lookup(after, db[b].keyHash) == Lookup(db, db[b].keyHash)
    {
      assert b in db - {w.app} && (db - {w.app})[b] == db[b];
      assert b in after && after[b] == db[b];
      LookupIs(db, b);
      LookupIs(after, b);
    }
  }

  // The row written: a new app is enabled, a status leaves the key and a key leaves the status.
  lemma WrittenRow(db: Registry, w: Write)
    requires !Duplicate(db, w) && (w.Create? || w.app in db)
    ensures var after := After(db, w);
            match w
            case Create(app, key) => app in after && after[app] == AppRow(key, 1)
            case UpdateStatus(app, status) => app in after && after[app] == AppRow(db[app].keyHash, status)
            case UpdateKey(app, key) => app in after && after[app] == AppRow(key, db[app].status)
            case Delete(app) => app !in after
  {
  }

  // The key an app has given up, by deletion or for another, finds nothing.
  lemma KeyIsFreed(db: Registry, w: Write)
    requires w.app in db && (w.Delete? || (w.UpdateKey? && !Duplicate(db, w) && w.key != db[w.app].keyHash))
    ensures Lookup(After(db, w), db[w.app].keyHash) == None
  {
    WrittenRow(db, w);
    OthersAreKept(db, w);
  }

  // The unique keys refuse exactly what would give an id or a key a second row.
  lemma DuplicateIs(db: Registry, w: Write)
    ensures Duplicate(db, w) <==>
      || (w.Create? && (w.app in db || Lookup(db, w.key).Some?))
      || (w.UpdateKey? && w.app in db && Lookup(db, w.key).Some? && Lookup(db, w.key).value.appId != w.app)
  {
    if w.UpdateKey? && w.app in db && Lookup(db, w.key).Some? {
      var b := Lookup(db, w.key).value.appId;
      LookupIs(db, b);
    }
  }
}
