/**
 What every interleaving of Authenticate calls and registry writers guarantees, and that
 no better bound holds.
 */
module AuthStaleness {
  import opened Wrappers
  import opened AppRegistry
  import opened AuthProtocol

  // ---- bounded staleness ----

  lemma StartInv(cfg: Config, t0: int, db: Registry)
    ensures Inv(cfg, Start(t0, db))
  {
  }

  // Every answer of every run was the registry's own answer at some instant: within
  // (at - ttl - lag, at] from the cache, within [at - lag, at] from the database, and at
  // the very moment when there was no such key.
  lemma BoundedStaleness(cfg: Config, t0: int, db: Registry, es: seq<Event>)
    requires Legal(cfg, Start(t0, db), es)
    ensures var s := Exec(cfg, Start(t0, db), es);
            forall a | a in s.answers :: Fresh(cfg, s.history, s.lag, a)
  {
    StartInv(cfg, t0, db);
    RunKeepsInv(cfg, Start(t0, db), es);
  }

  // ---- once a change has settled ----

  // The instants at which an answer still may reflect what held before a commit at d.
  predicate Settled(cfg: Config, lag: int, d: int, at: int) {
    at >= d + cfg.ttl + lag && at > d + lag
  }

  ghost predicate SaysFrom(history: seq<Snapshot>, k: nat, key: KeyHash, v: Option<AppInfo>) {
    forall i | k <= i < |history| :: Lookup(history[i].db, key) == v
  }

  lemma CurrentSince(history: seq<Snapshot>, now: int, k: nat, key: KeyHash, result: Option<AppInfo>, t: int)
    requires Ordered(history, now) && k < |history| && history[k].since < t && Current(history, key, result, t)
    ensures exists i :: k <= i < |history| && Lookup(history[i].db, key) == result
  {
    var i :| CurrentAs(history, i, key, result, t);
    if i < k {
      assert false;
    }
  }

  // The snapshot a settled answer was read from.
  lemma SettledAnswerSource(cfg: Config, s: State, k: nat, a: Answer)
    requires Inv(cfg, s) && k < |s.history| && a in s.answers
    requires Settled(cfg, s.lag, s.history[k].since, a.at)
    ensures exists i :: k <= i < |s.history| && Lookup(s.history[i].db, a.key) == a.result
  {
    assert Fresh(cfg, s.history, s.lag, a);
    var t :| s.history[k].since < t && Current(s.history, a.key, a.result, t);
    CurrentSince(s.history, s.now, k, a.key, a.result, t);
  }

  // A change of what a key means, committed as snapshot k and not undone, is the answer of
  // every call that answers ttl + L after the commit, in whichever process.
  lemma SettledChange(cfg: Config, t0: int, db: Registry, es: seq<Event>, L: int, k: nat, key: KeyHash, v: Option<AppInfo>)
    requires Legal(cfg, Start(t0, db), es)
    requires var s := Exec(cfg, Start(t0, db), es);
             s.lag <= L && k < |s.history| && SaysFrom(s.history, k, key, v)
    ensures var s := Exec(cfg, Start(t0, db), es);
            forall a | a in s.answers && a.key == key && Settled(cfg, L, s.history[k].since, a.at) :: a.result == v
  {
    var s := Exec(cfg, Start(t0, db), es);
    StartInv(cfg, t0, db);
    RunKeepsInv(cfg, Start(t0, db), es);
    forall a | a in s.answers && a.key == key && Settled(cfg, L, s.history[k].since, a.at) ensures a.result == v {
      SettledAnswerSource(cfg, s, k, a);
    }
  }

  // ---- disabled and deleted apps, and their configuration rows ----

  // The middleware lets a request through when the answer names an app with a status other than 0.
  predicate Admits(a: Answer, app: AppId) {
    a.result.Some? && a.result.value.appId == app && a.result.value.status != 0
  }

  ghost predicate InactiveFrom(history: seq<Snapshot>, k: nat, app: AppId) {
    forall i | k <= i < |history| && app in history[i].db :: history[i].db[app].status == 0
  }

  // A row was put by a request that an answer admitted, and after every deletion of its app.
  ghost predicate RowTraced(s: State, r: ConfigRow) {
    && r.putAt <= s.now
    && (exists a :: a in s.answers && Admits(a, r.app) && a.at == r.authAt)
    && (forall k | 1 <= k < |s.history| && DeletedAt(s.history, k, r.app) :: s.history[k].since <= r.putAt)
  }

  ghost predicate DeletedAt(history: seq<Snapshot>, k: int, app: AppId)
    requires 1 <= k < |history|
  {
    app in history[k - 1].db && app !in history[k].db
  }

  ghost predicate RowsTraced(s: State) {
    Ordered(s.history, s.now) && forall r | r in s.configRows :: RowTraced(s, r)
  }

  // A commit deletes no app whose rows it keeps.
  lemma CommitDeletesRows(s: State, w: Write, r: ConfigRow)
    requires s.history != [] && r in DoCommit(s, w).configRows
    ensures !DeletedAt(DoCommit(s, w).history, |s.history|, r.app)
  {
  }

  lemma CommitKeepsRowsTraced(cfg: Config, s: State, w: Write)
    requires RowsTraced(s)
    ensures RowsTraced(DoCommit(s, w))
  {
    var t := DoCommit(s, w);
    forall r | r in t.configRows ensures RowTraced(t, r) {
      assert RowTraced(s, r);
      CommitDeletesRows(s, w, r);
      forall k | 1 <= k < |t.history| && DeletedAt(t.history, k, r.app) ensures t.history[k].since <= r.putAt {
        assert k < |s.history| && DeletedAt(s.history, k, r.app);
      }
    }
  }

  lemma PutIsTraced(cfg: Config, s: State, i: nat, tag: nat)
    requires RowsTraced(s) && Enabled(cfg, s, PutConfig(i, tag))
    ensures RowTraced(s, ConfigRow(s.answers[i].result.value.appId, s.answers[i].at, s.now, tag))
  {
    var r := ConfigRow(s.answers[i].result.value.appId, s.answers[i].at, s.now, tag);
    assert s.answers[i] in s.answers && Admits(s.answers[i], r.app);
    forall k | 1 <= k < |s.history| ensures s.history[k].since <= r.putAt {
      assert k < |s.history| - 1 ==> s.history[k].since <= s.history[|s.history| - 1].since;
    }
  }

  // A row stays traced while the history stands and answers and time only grow.
  lemma TracedLasts(s: State, t: State, r: ConfigRow)
    requires RowTraced(s, r) && t.history == s.history && s.now <= t.now && s.answers <= t.answers
    ensures RowTraced(t, r)
  {
    var a :| a in s.answers && Admits(a, r.app) && a.at == r.authAt;
    assert a in t.answers;
  }

  lemma StepKeepsRowsTraced(cfg: Config, s: State, e: Event)
    requires s.history != [] && RowsTraced(s) && Enabled(cfg, s, e)
    ensures RowsTraced(Apply(cfg, s, e))
  {
    if e.Commit? {
      CommitKeepsRowsTraced(cfg, s, e.w);
    } else {
      var t := Apply(cfg, s, e);
      forall r | r in t.configRows ensures RowTraced(t, r) {
        if r !in s.configRows { PutIsTraced(cfg, s, e.answer, e.tag); }
        TracedLasts(s, t, r);
      }
    }
  }

  lemma {:induction false} RunKeepsRowsTraced(cfg: Config, s: State, es: seq<Event>)
    requires s.history != [] && RowsTraced(s) && Legal(cfg, s, es)
    ensures RowsTraced(Exec(cfg, s, es))
    decreases |es|
  {
    if es != [] {
      StepKeepsRowsTraced(cfg, s, es[0]);
      RunKeepsRowsTraced(cfg, Apply(cfg, s, es[0]), es[1..]);
    }
  }

  // An app that from snapshot k on is disabled or gone is admitted by no answer once the
  // change has settled, so no request authenticated after that writes a row for it.
  lemma InactiveAppIsOut(cfg: Config, t0: int, db: Registry, es: seq<Event>, L: int, k: nat, app: AppId)
    requires Legal(cfg, Start(t0, db), es)
    requires var s := Exec(cfg, Start(t0, db), es);
             s.lag <= L && k < |s.history| && InactiveFrom(s.history, k, app)
    ensures var s := Exec(cfg, Start(t0, db), es);
            && (forall a | a in s.answers && Settled(cfg, L, s.history[k].since, a.at) :: !Admits(a, app))
            && (forall r | r in s.configRows && r.app == app :: !Settled(cfg, L, s.history[k].since, r.authAt))
  {
    var s := Exec(cfg, Start(t0, db), es);
    StartInv(cfg, t0, db);
    RunKeepsInv(cfg, Start(t0, db), es);
    forall a | a in s.answers && Settled(cfg, L, s.history[k].since, a.at) ensures !Admits(a, app) {
      SettledAnswerSource(cfg, s, k, a);
    }
    RunKeepsRowsTraced(cfg, Start(t0, db), es);
    forall r | r in s.configRows && r.app == app ensures !Settled(cfg, L, s.history[k].since, r.authAt) {
      assert RowTraced(s, r);
    }
  }

  // The rows a deleted app is left with were put after the deletion, by requests that had been
  // authenticated before it settled.
  lemma StrayRows(cfg: Config, t0: int, db: Registry, es: seq<Event>, L: int, k: nat, app: AppId)
    requires Legal(cfg, Start(t0, db), es)
    requires var s := Exec(cfg, Start(t0, db), es);
             && s.lag <= L && 1 <= k < |s.history|
             && DeletedAt(s.history, k, app) && InactiveFrom(s.history, k, app)
    ensures var s := Exec(cfg, Start(t0, db), es);
            forall r | r in s.configRows && r.app == app ::
              s.history[k].since <= r.putAt && !Settled(cfg, L, s.history[k].since, r.authAt)
  {
    var s := Exec(cfg, Start(t0, db), es);
    InactiveAppIsOut(cfg, t0, db, es, L, k, app);
    RunKeepsRowsTraced(cfg, Start(t0, db), es);
    forall r | r in s.configRows && r.app == app ensures s.history[k].since <= r.putAt {
      assert RowTraced(s, r);
    }
  }

  // ---- revocation, from the statement that was committed ----

  // A write that takes access from an app, and the writes that could give it back.
  predicate Revokes(w: Write, app: AppId) {
    w == Delete(app) || w == UpdateStatus(app, 0)
  }

  predicate Restores(w: Write, app: AppId) {
    (w.Create? && w.app == app) || (w.UpdateStatus? && w.app == app && w.status != 0)
  }

  ghost predicate Never(es: seq<Event>, bad: Write -> bool) {
    forall i | 0 <= i < |es| && es[i].Commit? :: !bad(es[i].w)
  }

  predicate Inactive(db: Registry, app: AppId) {
    app in db ==> db[app].status == 0
  }

  lemma StaysInactive(db: Registry, w: Write, app: AppId)
    requires (Inactive(db, app) && !Restores(w, app)) || Revokes(w, app)
    ensures Inactive(After(db, w), app)
  {
  }

  lemma {:induction false} RunStaysInactive(cfg: Config, s: State, es: seq<Event>, k: nat, app: AppId)
    requires s.history != [] && Legal(cfg, s, es) && k < |s.history| && InactiveFrom(s.history, k, app)
    requires Never(es, w => Restores(w, app))
    ensures var t := Exec(cfg, s, es); s.history <= t.history && InactiveFrom(t.history, k, app)
    decreases |es|
  {
    if es != [] {
      if es[0].Commit? { StaysInactive(Db(s), es[0].w, app); }
      RunStaysInactive(cfg, Apply(cfg, s, es[0]), es[1..], k, app);
    }
  }

  // Once a status 0 or a deletion is committed, and as long as nobody enables or creates the
  // app again, no answer of any process from ttl + L after the commit admits it.
  lemma RevocationTakesEffect(cfg: Config, t0: int, db: Registry, before: seq<Event>, w: Write, after: seq<Event>,
                              L: int, app: AppId)
    requires Legal(cfg, Start(t0, db), before) && Revokes(w, app)
    requires var s := Exec(cfg, Start(t0, db), before);
             Legal(cfg, DoCommit(s, w), after) && Exec(cfg, DoCommit(s, w), after).lag <= L
    requires Never(after, w' => Restores(w', app))
    ensures var s := Exec(cfg, Start(t0, db), before);
            forall a | a in Exec(cfg, DoCommit(s, w), after).answers && Settled(cfg, L, s.now, a.at) :: !Admits(a, app)
  {
    var s := Exec(cfg, Start(t0, db), before);
    var s', k := DoCommit(s, w), |s.history|;
    var t := Exec(cfg, s', after);
    StartInv(cfg, t0, db);
    RunKeepsInv(cfg, Start(t0, db), before);
    CommitKeepsInv(cfg, s, w);
    RunKeepsInv(cfg, s', after);
    StaysInactive(Db(s), w, app);
    RunStaysInactive(cfg, s', after, k, app);
    assert t.history[k] == s'.history[k];
    forall a | a in t.answers && Settled(cfg, L, s.now, a.at) ensures !Admits(a, app) {
      SettledAnswerSource(cfg, t, k, a);
    }
  }

  predicate Assigns(w: Write, key: KeyHash) {
    (w.Create? || w.UpdateKey?) && w.key == key
  }

  lemma StaysFree(db: Registry, w: Write, key: KeyHash)
    requires !KeyInUse(db, key) && !Assigns(w, key)
    ensures !KeyInUse(After(db, w), key)
  {
  }

  lemma {:induction false} RunStaysFree(cfg: Config, s: State, es: seq<Event>, k: nat, key: KeyHash)
    requires s.history != [] && Legal(cfg, s, es) && k < |s.history| && SaysFrom(s.history, k, key, None)
    requires Never(es, w => Assigns(w, key))
    ensures var t := Exec(cfg, s, es); s.history <= t.history && SaysFrom(t.history, k, key, None)
    decreases |es|
  {
    if es != [] {
      if es[0].Commit? {
        assert Lookup(Db(s), key) == None;
        StaysFree(Db(s), es[0].w, key);
      }
      RunStaysFree(cfg, Apply(cfg, s, es[0]), es[1..], k, key);
    }
  }

  // Once a new key is committed for an app, and as long as nobody is given the old one, every
  // answer to the old key from ttl + L after the commit says that there is no such key.
  lemma OldKeyStopsWorking(cfg: Config, t0: int, db: Registry, before: seq<Event>, app: AppId, newKey: KeyHash,
                           after: seq<Event>, L: int)
    requires Legal(cfg, Start(t0, db), before)
    requires var s := Exec(cfg, Start(t0, db), before);
             && app in Db(s) && newKey != Db(s)[app].keyHash && !Duplicate(Db(s), UpdateKey(app, newKey))
             && Legal(cfg, DoCommit(s, UpdateKey(app, newKey)), after)
             && Exec(cfg, DoCommit(s, UpdateKey(app, newKey)), after).lag <= L
             && Never(after, w => Assigns(w, Db(s)[app].keyHash))
    ensures var s := Exec(cfg, Start(t0, db), before);
            forall a | a in Exec(cfg, DoCommit(s, UpdateKey(app, newKey)), after).answers
                       && a.key == Db(s)[app].keyHash && Settled(cfg, L, s.now, a.at) :: a.result == None
  {
    var s := Exec(cfg, Start(t0, db), before);
    var w, k, oldKey := UpdateKey(app, newKey), |s.history|, Db(s)[app].keyHash;
    var s' := DoCommit(s, w);
    var t := Exec(cfg, s', after);
    StartInv(cfg, t0, db);
    RunKeepsInv(cfg, Start(t0, db), before);
    CommitKeepsInv(cfg, s, w);
    RunKeepsInv(cfg, s', after);
    KeyIsFreed(Db(s), w);
    RunStaysFree(cfg, s', after, k, oldKey);
    assert t.history[k] == s'.history[k];
    forall a | a in t.answers && a.key == oldKey && Settled(cfg, L, s.now, a.at) ensures a.result == None {
      SettledAnswerSource(cfg, t, k, a);
    }
  }

  lemma {:induction false} RowsStay(cfg: Config, s: State, es: seq<Event>, r: ConfigRow)
    requires s.history != [] && Legal(cfg, s, es) && r in s.configRows && Never(es, w => w == Delete(r.app))
    ensures r in Exec(cfg, s, es).configRows
    decreases |es|
  {
    if es != [] { RowsStay(cfg, Apply(cfg, s, es[0]), es[1..], r); }
  }

  // What an admitted request puts is there from then on, until its app is deleted.
  lemma PutLasts(cfg: Config, s: State, i: nat, tag: nat, es: seq<Event>)
    requires s.history != [] && i < |s.answers| && s.answers[i].result.Some? && s.answers[i].result.value.status != 0
    requires Legal(cfg, s, [PutConfig(i, tag)] + es)
    requires Never(es, w => w == Delete(s.answers[i].result.value.appId))
    ensures ConfigRow(s.answers[i].result.value.appId, s.answers[i].at, s.now, tag)
            in Exec(cfg, s, [PutConfig(i, tag)] + es).configRows
  {
    assert ([PutConfig(i, tag)] + es)[1..] == es;
    RowsStay(cfg, Apply(cfg, s, PutConfig(i, tag)), es, ConfigRow(s.answers[i].result.value.appId, s.answers[i].at, s.now, tag));
  }

  // A deletion takes the app's row and configuration rows in one step, and no others.
  lemma DeleteIsDeletedAt(s: State, app: AppId)
    requires s.history != [] && app in Db(s)
    ensures var t := DoCommit(s, Delete(app));
            && DeletedAt(t.history, |s.history|, app)
            && (forall r :: r in t.configRows <==> r in s.configRows && r.app != app)
            && OthersKept(Db(s), Db(t), app)
  {
    OthersAreKept(Db(s), Delete(app));
  }

  // ---- the bound cannot be improved ----

  // A read that is under way when the status changes fills the cache after its own process
  // has cleared it, and the old row is served until ttl + L after the commit.
  function StaleRun(cfg: Config, app: AppId, key: KeyHash, L: nat): seq<Event>
    requires cfg.ttl >= 1
  {
    [Miss(0, 0, key), Read(0), Commit(UpdateStatus(app, 0)), Invalidate(0),
     Tick(L), Fill(0, None), Tick(cfg.ttl - 1), Hit(0, key)]
  }

  lemma LegalStep(cfg: Config, s: State, e: Event, es: seq<Event>)
    requires s.history != [] && Enabled(cfg, s, e) && Legal(cfg, Apply(cfg, s, e), es)
    ensures Legal(cfg, s, [e] + es) && Exec(cfg, s, [e] + es) == Exec(cfg, Apply(cfg, s, e), es)
  {
    assert ([e] + es)[1..] == es;
  }

  lemma StaleHit(cfg: Config, s: State, key: KeyHash, info: AppInfo)
    requires cfg.ttl >= 1 && s.history != [] && CacheOf(s, 0) == map[key := Entry(info, s.now + cfg.ttl)]
    ensures var es := [Tick(cfg.ttl - 1), Hit(0, key)];
            && Legal(cfg, s, es)
            && var t := Exec(cfg, s, es);
            t.lag == s.lag && t.history == s.history &&
            t.answers == s.answers + [Answer(0, key, Some(info), s.now + cfg.ttl - 1, FromCache, |s.history| - 1)]
  {
    var s1 := Apply(cfg, s, Tick(cfg.ttl - 1));
    assert Live(CacheOf(s1, 0), key, s1.now);
    LegalStep(cfg, s1, Hit(0, key), []);
    LegalStep(cfg, s, Tick(cfg.ttl - 1), [Hit(0, key)]);
  }

  lemma LateFill(cfg: Config, s: State, key: KeyHash, info: AppInfo, readAt: int)
    requires s.history != [] && s.caches == map[0 := map[]] && s.calls == map[0 := Fetched(0, key, info, readAt)]
    ensures Enabled(cfg, s, Fill(0, None))
    ensures var t := Apply(cfg, s, Fill(0, None));
            && t.lag == Max(s.lag, s.now - readAt) && t.history == s.history && t.now == s.now
            && CacheOf(t, 0) == map[key := Entry(info, s.now + cfg.ttl)]
            && t.answers == s.answers + [Answer(0, key, Some(info), s.now, FromDatabase, |s.history| - 1)]
  {
    assert EvictionChoice(cfg, CacheOf(s, 0), None);
  }

  lemma StaleTail(cfg: Config, s: State, key: KeyHash, info: AppInfo, L: nat)
    requires cfg.ttl >= 1 && s.history != [] && s.lag == 0 && s.caches == map[0 := map[]]
    requires s.calls == map[0 := Fetched(0, key, info, s.now)]
    ensures var es := [Tick(L), Fill(0, None), Tick(cfg.ttl - 1), Hit(0, key)];
            && Legal(cfg, s, es)
            && var t := Exec(cfg, s, es);
            t.lag == L && t.history == s.history &&
            t.answers == s.answers + [Answer(0, key, Some(info), s.now + L, FromDatabase, |s.history| - 1)]
                                   + [Answer(0, key, Some(info), s.now + cfg.ttl + L - 1, FromCache, |s.history| - 1)]
  {
    var tail := [Tick(cfg.ttl - 1), Hit(0, key)];
    var s1 := Apply(cfg, s, Tick(L));
    LateFill(cfg, s1, key, info, s.now);
    var s2 := Apply(cfg, s1, Fill(0, None));
    StaleHit(cfg, s2, key, info);
    LegalStep(cfg, s1, Fill(0, None), tail);
    LegalStep(cfg, s, Tick(L), [Fill(0, None)] + tail);
    assert [Tick(L)] + ([Fill(0, None)] + tail) == [Tick(L), Fill(0, None), Tick(cfg.ttl - 1), Hit(0, key)];
  }

  // The commit and the invalidation come between the read and the fill.
  lemma StaleHead(cfg: Config, t0: int, db: Registry, app: AppId, key: KeyHash, tail: seq<Event>)
    requires db == map[app := AppRow(key, 1)]
    requires Legal(cfg, StaleMid(t0, db, app, key), tail)
    ensures var es := [Miss(0, 0, key), Read(0), Commit(UpdateStatus(app, 0)), Invalidate(0)] + tail;
            && Legal(cfg, Start(t0, db), es)
            && Exec(cfg, Start(t0, db), es) == Exec(cfg, StaleMid(t0, db, app, key), tail)
  {
    LookupIs(db, app);
    var s0 := Start(t0, db);
    var s1 := Apply(cfg, s0, Miss(0, 0, key));
    var s2 := Apply(cfg, s1, Read(0));
    assert s2 == s1.(calls := map[0 := Fetched(0, key, AppInfo(app, 1), t0)]);
    var s3 := Apply(cfg, s2, Commit(UpdateStatus(app, 0)));
    var s4 := Apply(cfg, s3, Invalidate(0));
    assert s4 == StaleMid(t0, db, app, key);
    LegalStep(cfg, s3, Invalidate(0), tail);
    var es3 := [Invalidate(0)] + tail;
    LegalStep(cfg, s2, Commit(UpdateStatus(app, 0)), es3);
    var es2 := [Commit(UpdateStatus(app, 0))] + es3;
    LegalStep(cfg, s1, Read(0), es2);
    var es1 := [Read(0)] + es2;
    LegalStep(cfg, s0, Miss(0, 0, key), es1);
    assert [Miss(0, 0, key), Read(0), Commit(UpdateStatus(app, 0)), Invalidate(0)] + tail == [Miss(0, 0, key)] + es1;
  }

  function StaleMid(t0: int, db: Registry, app: AppId, key: KeyHash): State {
    State(t0, [Snapshot(t0, db), Snapshot(t0, After(db, UpdateStatus(app, 0)))], map[0 := map[]],
      map[0 := Fetched(0, key, AppInfo(app, 1), t0)], [], {}, 0)
  }

  // Whatever ttl and L: an app disabled at t0, in a run with no slower call than L, is still
  // answered as enabled at t0 + ttl + L - 1 although its process cleared its cache at t0.
  lemma BoundIsTight(cfg: Config, t0: int, app: AppId, key: KeyHash, L: nat)
    requires cfg.ttl >= 1
    ensures var s0 := Start(t0, map[app := AppRow(key, 1)]);
            var es := StaleRun(cfg, app, key, L);
            && Legal(cfg, s0, es)
            && var s := Exec(cfg, s0, es);
            && s.lag == L
            && |s.history| == 2 && s.history[1].since == t0
            && SaysFrom(s.history, 1, key, Some(AppInfo(app, 0)))
            && Answer(0, key, Some(AppInfo(app, 1)), t0 + cfg.ttl + L - 1, FromCache, 1) in s.answers
  {
    var db: Registry := map[app := AppRow(key, 1)];
    var tail := [Tick(L), Fill(0, None), Tick(cfg.ttl - 1), Hit(0, key)];
    StaleTail(cfg, StaleMid(t0, db, app, key), key, AppInfo(app, 1), L);
    StaleHead(cfg, t0, db, app, key, tail);
    LookupIs(After(db, UpdateStatus(app, 0)), app);
    assert StaleRun(cfg, app, key, L) == [Miss(0, 0, key), Read(0), Commit(UpdateStatus(app, 0)), Invalidate(0)] + tail;
    var s := Exec(cfg, Start(t0, db), StaleRun(cfg, app, key, L));
    assert s.answers[1] == Answer(0, key, Some(AppInfo(app, 1)), t0 + cfg.ttl + L - 1, FromCache, 1);
  }

  // ---- the size of a cache ----

  lemma RemoveOne(cache: Cache, victim: KeyHash)
    requires victim in cache
    ensures |cache - {victim}| == |cache| - 1
  {
    assert (cache - {victim}).Keys == cache.Keys - {victim};
    assert |cache.Keys| == |cache|;
  }

  lemma InsertGrowsByAtMostOne(cache: Cache, key: KeyHash, entry: Entry)
    ensures |cache[key := entry]| <= |cache| + 1
  {
    assert cache[key := entry].Keys == cache.Keys + {key};
    assert |cache[key := entry].Keys| == |cache[key := entry]| && |cache.Keys| == |cache|;
  }

  ghost predicate SizesOk(cfg: Config, s: State) {
    forall p | p in s.caches :: |s.caches[p]| <= Max(1, cfg.maxSize)
  }

  lemma StepKeepsSizes(cfg: Config, s: State, e: Event)
    requires s.history != [] && SizesOk(cfg, s) && Enabled(cfg, s, e)
    ensures SizesOk(cfg, Apply(cfg, s, e))
  {
    if e.Fill? {
      var call := s.calls[e.call];
      var cache := CacheOf(s, call.proc);
      if e.victim.Some? { RemoveOne(cache, e.victim.value); }
      InsertGrowsByAtMostOne(Evict(cache, e.victim), call.key, Entry(call.info, s.now + cfg.ttl));
    }
  }

  // No cache ever holds more than maxSize entries (one entry when maxSize is not positive).
  lemma {:induction false} CacheIsBounded(cfg: Config, s: State, es: seq<Event>)
    requires s.history != [] && SizesOk(cfg, s) && Legal(cfg, s, es)
    ensures SizesOk(cfg, Exec(cfg, s, es))
    decreases |es|
  {
    if es != [] {
      StepKeepsSizes(cfg, s, es[0]);
      CacheIsBounded(cfg, Apply(cfg, s, es[0]), es[1..]);
    }
  }

  // ---- when a cache is invisible ----

  // What the cache of process p may hold out of date: the keys whose row has changed since p
  // last filled them or cleared its cache. A key that had no row is not among them: misses
  // are never cached, so creating its row asks for no invalidation.
  ghost function NextDirty(s: State, e: Event, p: nat, dirty: iset<KeyHash>): iset<KeyHash>
    requires s.history != []
  {
    match e
    case Commit(w) => dirty + iset k | k in Changed(Db(s), w) && Lookup(Db(s), k).Some?
    case Invalidate(q) => if q == p then iset{} else dirty
    case Fill(c, victim) => if c in s.calls && s.calls[c].proc == p then dirty - iset{s.calls[c].key} else dirty
    case _ => dirty
  }

  ghost function Changed(db: Registry, w: Write): iset<KeyHash> {
    iset k | Lookup(After(db, w), k) != Lookup(db, k)
  }

  // The discipline under which process p is transparent, whatever the other processes do: no
  // change of a key falls between p's read and p's fill of it, and p hits no dirty key.
  ghost predicate Orderly(s: State, e: Event, p: nat, dirty: iset<KeyHash>)
    requires s.history != []
  {
    match e
    case Hit(q, key) => q == p ==> key !in dirty
    case Commit(w) =>
      forall c | c in s.calls && s.calls[c].Fetched? && s.calls[c].proc == p :: s.calls[c].key !in Changed(Db(s), w)
    case _ => true
  }

  ghost predicate OrderlyRun(cfg: Config, s: State, es: seq<Event>, p: nat, dirty: iset<KeyHash>)
    requires s.history != [] && Legal(cfg, s, es)
    decreases |es|
  {
    es == [] ||
    (Orderly(s, es[0], p, dirty) && OrderlyRun(cfg, Apply(cfg, s, es[0]), es[1..], p, NextDirty(s, es[0], p, dirty)))
  }

  ghost predicate Mirrors(s: State, cache: Cache, dirty: iset<KeyHash>)
    requires s.history != []
  {
    forall k | k in cache && k !in dirty :: Lookup(Db(s), k) == Some(cache[k].info)
  }

  ghost predicate Exact(history: seq<Snapshot>, a: Answer) {
    a.version < |history| && a.result == Lookup(history[a.version].db, a.key)
  }

  ghost predicate AllExact(s: State, p: nat) {
    forall i | 0 <= i < |s.answers| && s.answers[i].proc == p :: Exact(s.history, s.answers[i])
  }

  ghost predicate ReadsCurrent(s: State, p: nat)
    requires s.history != []
  {
    forall c | c in s.calls && s.calls[c].Fetched? && s.calls[c].proc == p ::
      Lookup(Db(s), s.calls[c].key) == Some(s.calls[c].info)
  }

  ghost predicate Transparent(s: State, p: nat, dirty: iset<KeyHash>)
    requires s.history != []
  {
    Mirrors(s, CacheOf(s, p), dirty) && ReadsCurrent(s, p) && AllExact(s, p)
  }

  lemma AnswersStayExact(s: State, t: State, p: nat)
    requires AllExact(s, p)
    requires s.history <= t.history && s.answers <= t.answers
    requires forall i | |s.answers| <= i < |t.answers| && t.answers[i].proc == p :: Exact(t.history, t.answers[i])
    ensures AllExact(t, p)
  {
    forall i | 0 <= i < |t.answers| && t.answers[i].proc == p ensures Exact(t.history, t.answers[i]) {
      if i < |s.answers| {
        assert Exact(s.history, s.answers[i]) && t.answers[i] == s.answers[i];
      }
    }
  }

  lemma OrderlyAnswer(s: State, q: nat, key: KeyHash, result: Option<AppInfo>, source: Source, p: nat, dirty: iset<KeyHash>)
    requires s.history != [] && Transparent(s, p, dirty) && (q == p ==> result == Lookup(Db(s), key))
    ensures Transparent(AddAnswer(s, q, key, result, source), p, dirty)
  {
    AnswersStayExact(s, AddAnswer(s, q, key, result, source), p);
  }

  lemma OrderlyStore(cfg: Config, s: State, call: Call, victim: Option<KeyHash>, p: nat, dirty: iset<KeyHash>)
    requires s.history != [] && Transparent(s, p, dirty)
    requires call.Fetched? && (call.proc == p ==> Lookup(Db(s), call.key) == Some(call.info))
    ensures Transparent(Store(cfg, s, call, victim), p, if call.proc == p then dirty - iset{call.key} else dirty)
  {
    var cache := CacheOf(Store(cfg, s, call, victim), p);
    if call.proc == p {
      forall k | k in cache && k !in dirty - iset{call.key} ensures Lookup(Db(s), k) == Some(cache[k].info) {
        if k != call.key { assert k in CacheOf(s, p); }
      }
    }
  }

  lemma OrderlyFill(cfg: Config, s: State, c: nat, victim: Option<KeyHash>, p: nat, dirty: iset<KeyHash>)
    requires s.history != [] && Transparent(s, p, dirty) && c in s.calls && s.calls[c].Fetched?
    ensures Transparent(DoFill(cfg, s, c, victim), p, NextDirty(s, Fill(c, victim), p, dirty))
  {
    var call := s.calls[c];
    OrderlyStore(cfg, Arrive(s, c), call, victim, p, dirty);
    OrderlyAnswer(Store(cfg, Arrive(s, c), call, victim), call.proc, call.key, Some(call.info), FromDatabase, p,
      NextDirty(s, Fill(c, victim), p, dirty));
  }

  lemma OrderlyRead(s: State, c: nat, p: nat, dirty: iset<KeyHash>)
    requires s.history != [] && Transparent(s, p, dirty) && c in s.calls && s.calls[c].Missed?
    ensures Transparent(DoRead(s, c), p, dirty)
  {
    var call := s.calls[c];
    if Lookup(Db(s), call.key).None? {
      OrderlyAnswer(s.(calls := s.calls - {c}), call.proc, call.key, None, NoSuchKey, p, dirty);
    }
  }

  lemma OrderlyCommit(s: State, w: Write, p: nat, dirty: iset<KeyHash>)
    requires s.history != [] && Transparent(s, p, dirty) && Orderly(s, Commit(w), p, dirty)
    ensures Transparent(DoCommit(s, w), p, NextDirty(s, Commit(w), p, dirty))
  {
    var t := DoCommit(s, w);
    AnswersStayExact(s, t, p);
    assert Db(t) == After(Db(s), w);
  }

  lemma OrderlyHit(cfg: Config, s: State, q: nat, key: KeyHash, p: nat, dirty: iset<KeyHash>)
    requires s.history != [] && Transparent(s, p, dirty)
    requires Live(CacheOf(s, q), key, s.now) && (q == p ==> key !in dirty)
    ensures Transparent(Apply(cfg, s, Hit(q, key)), p, dirty)
  {
    OrderlyAnswer(s, q, key, Some(CacheOf(s, q)[key].info), FromCache, p, dirty);
  }

  lemma OrderlyStep(cfg: Config, s: State, e: Event, p: nat, dirty: iset<KeyHash>)
    requires s.history != [] && Enabled(cfg, s, e) && Orderly(s, e, p, dirty) && Transparent(s, p, dirty)
    ensures Transparent(Apply(cfg, s, e), p, NextDirty(s, e, p, dirty))
  {
    match e
    case Fill(c, victim) => OrderlyFill(cfg, s, c, victim, p, dirty);
    case Commit(w) => OrderlyCommit(s, w, p, dirty);
    case Read(c) => OrderlyRead(s, c, p, dirty);
    case Hit(q, key) => OrderlyHit(cfg, s, q, key, p, dirty);
    case _ =>
  }

  lemma {:induction false} OrderlyRunStaysTransparent(cfg: Config, s: State, es: seq<Event>, p: nat, dirty: iset<KeyHash>)
    requires s.history != [] && Legal(cfg, s, es) && OrderlyRun(cfg, s, es, p, dirty) && Transparent(s, p, dirty)
    ensures AllExact(Exec(cfg, s, es), p)
    decreases |es|
  {
    if es != [] {
      OrderlyStep(cfg, s, es[0], p, dirty);
      OrderlyRunStaysTransparent(cfg, Apply(cfg, s, es[0]), es[1..], p, NextDirty(s, es[0], p, dirty));
    }
  }

  // In a run that is orderly for process p, every answer p gives is exactly what the registry
  // holds when it is given.
  lemma OrderlyRunIsTransparent(cfg: Config, t0: int, db: Registry, es: seq<Event>, p: nat)
    requires Legal(cfg, Start(t0, db), es) && OrderlyRun(cfg, Start(t0, db), es, p, iset{})
    ensures var s := Exec(cfg, Start(t0, db), es);
            forall a | a in s.answers && a.proc == p ::
              a.version < |s.history| && a.result == Lookup(s.history[a.version].db, a.key)
  {
    OrderlyRunStaysTransparent(cfg, Start(t0, db), es, p, iset{});
    var s := Exec(cfg, Start(t0, db), es);
    forall a | a in s.answers && a.proc == p ensures Exact(s.history, a) {
      var i :| 0 <= i < |s.answers| && s.answers[i] == a;
    }
  }

  // ---- creation is never seen late ----

  lemma CreateChangesNoRow(db: Registry, app: AppId, key: KeyHash, k: KeyHash)
    requires Lookup(db, k).Some?
    ensures Lookup(After(db, Create(app, key)), k) == Lookup(db, k)
  {
    var a := Lookup(db, k).value.appId;
    LookupIs(db, a);
    LookupIs(After(db, Create(app, key)), a);
  }

  lemma CreateIsOrderly(s: State, e: Event, p: nat)
    requires s.history != [] && Transparent(s, p, iset{}) && (e.Commit? ==> e.w.Create?)
    ensures Orderly(s, e, p, iset{}) && NextDirty(s, e, p, iset{}) == iset{}
  {
    if e.Commit? {
      forall k | Lookup(Db(s), k).Some? ensures k !in Changed(Db(s), e.w) {
        CreateChangesNoRow(Db(s), e.w.app, e.w.key, k);
      }
    }
  }

  ghost predicate OnlyCreates(es: seq<Event>) {
    forall i | 0 <= i < |es| && es[i].Commit? :: es[i].w.Create?
  }

  lemma {:induction false} CreatesAreOrderly(cfg: Config, s: State, es: seq<Event>, p: nat)
    requires s.history != [] && Legal(cfg, s, es) && OnlyCreates(es) && Transparent(s, p, iset{})
    ensures OrderlyRun(cfg, s, es, p, iset{})
    decreases |es|
  {
    if es != [] {
      CreateIsOrderly(s, es[0], p);
      OrderlyStep(cfg, s, es[0], p, iset{});
      CreatesAreOrderly(cfg, Apply(cfg, s, es[0]), es[1..], p);
    }
  }

  // As long as apps are only created, every answer of every process is the registry's current
  // one in every interleaving, and nobody ever clears a cache.
  lemma CreationIsNeverSeenLate(cfg: Config, t0: int, db: Registry, es: seq<Event>)
    requires Legal(cfg, Start(t0, db), es) && OnlyCreates(es)
    ensures var s := Exec(cfg, Start(t0, db), es);
            forall a | a in s.answers :: a.version < |s.history| && a.result == Lookup(s.history[a.version].db, a.key)
  {
    var s := Exec(cfg, Start(t0, db), es);
    forall a | a in s.answers ensures Exact(s.history, a) {
      CreatesAreOrderly(cfg, Start(t0, db), es, a.proc);
      OrderlyRunIsTransparent(cfg, t0, db, es, a.proc);
    }
  }
}
