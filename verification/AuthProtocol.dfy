/**
 Authenticate and the registry writers as a step system: any number of processes, each
 with its own cache, over one registry. A call is three steps (cache check, database read,
 fill) and every other step may come between them; a writer commits first and clears only
 the cache of its own process, later or never.
 */
module AuthProtocol {
  import opened Wrappers
  import opened AppRegistry

  datatype Config = Config(ttl: int, maxSize: int)

  datatype Entry = Entry(info: AppInfo, expiresAt: int)
  type Cache = map<KeyHash, Entry>

  datatype Call =
    | Missed(proc: nat, key: KeyHash)
    | Fetched(proc: nat, key: KeyHash, info: AppInfo, readAt: int)

  // The registry from `since` on, until the next snapshot.
  datatype Snapshot = Snapshot(since: int, db: Registry)

  datatype Source = FromCache | FromDatabase | NoSuchKey

  // `version` is the index of the snapshot that was current when the answer was given.
  datatype Answer = Answer(proc: nat, key: KeyHash, result: Option<AppInfo>, at: int, source: Source, version: nat)

  // A local_asr_config row, with the time its writer was authenticated and the time it was put.
  datatype ConfigRow = ConfigRow(app: AppId, authAt: int, putAt: int, tag: nat)

  datatype State = State(
    now: int,
    history: seq<Snapshot>,
    caches: map<nat, Cache>,
    calls: map<nat, Call>,
    answers: seq<Answer>,
    configRows: set<ConfigRow>,
    lag: int)  // the longest time between the read and the fill of one call so far

  datatype Event =
    | Tick(d: nat)
    | Hit(proc: nat, key: KeyHash)
    | Miss(call: nat, proc: nat, key: KeyHash)
    | Read(call: nat)
    | ReadError(call: nat)
    | Fill(call: nat, victim: Option<KeyHash>)
    | Commit(w: Write)
    | Invalidate(proc: nat)
    | PutConfig(answer: nat, tag: nat)

  function Start(t0: int, db: Registry): State {
    State(t0, [Snapshot(t0, db)], map[], map[], [], {}, 0)
  }

  function CacheOf(s: State, p: nat): Cache {
    if p in s.caches then s.caches[p] else map[]
  }

  predicate Live(cache: Cache, key: KeyHash, now: int) {
    key in cache && now < cache[key].expiresAt
  }

  // An entry the eviction loop may settle on: none expires earlier.
  ghost predicate Oldest(cache: Cache, victim: KeyHash) {
    victim in cache && forall k | k in cache :: cache[victim].expiresAt <= cache[k].expiresAt
  }

  ghost predicate EvictionChoice(cfg: Config, cache: Cache, victim: Option<KeyHash>) {
    if |cache| >= cfg.maxSize && cache != map[] then victim.Some? && Oldest(cache, victim.value) else victim.None?
  }

  function Evict(cache: Cache, victim: Option<KeyHash>): Cache {
    if victim.Some? then cache - {victim.value} else cache
  }

  function Db(s: State): Registry
    requires s.history != []
  {
    s.history[|s.history| - 1].db
  }

  ghost predicate Enabled(cfg: Config, s: State, e: Event)
    requires s.history != []
  {
    match e
    case Tick(d) => true
    case Hit(p, key) => Live(CacheOf(s, p), key, s.now)
    case Miss(c, p, key) => c !in s.calls && !Live(CacheOf(s, p), key, s.now)
    case Read(c) => c in s.calls && s.calls[c].Missed?
    case ReadError(c) => c in s.calls && s.calls[c].Missed?
    case Fill(c, victim) =>
      c in s.calls && s.calls[c].Fetched? && EvictionChoice(cfg, CacheOf(s, s.calls[c].proc), victim)
    case Commit(w) => true
    case Invalidate(p) => true
    case PutConfig(i, tag) => i < |s.answers| && s.answers[i].result.Some? && s.answers[i].result.value.status != 0
  }

  function AddAnswer(s: State, proc: nat, key: KeyHash, result: Option<AppInfo>, source: Source): State
    requires s.history != []
  {
    s.(answers := s.answers + [Answer(proc, key, result, s.now, source, |s.history| - 1)])
  }

  function DoRead(s: State, c: nat): State
    requires s.history != [] && c in s.calls && s.calls[c].Missed?
  {
    var call := s.calls[c];
    var found := Lookup(Db(s), call.key);
    if found.None? then
      AddAnswer(s.(calls := s.calls - {c}), call.proc, call.key, None, NoSuchKey)
    else
      s.(calls := s.calls[c := Fetched(call.proc, call.key, found.value, s.now)])
  }

  // The call's last moment before it writes the cache.
  function Arrive(s: State, c: nat): State
    requires c in s.calls && s.calls[c].Fetched?
  {
    s.(calls := s.calls - {c}, lag := Max(s.lag, s.now - s.calls[c].readAt))
  }

  function Store(cfg: Config, s: State, call: Call, victim: Option<KeyHash>): State
    requires call.Fetched?
  {
    var cache := Evict(CacheOf(s, call.proc), victim)[call.key := Entry(call.info, s.now + cfg.ttl)];
    s.(caches := s.caches[call.proc := cache])
  }

  function DoFill(cfg: Config, s: State, c: nat, victim: Option<KeyHash>): State
    requires s.history != [] && c in s.calls && s.calls[c].Fetched?
  {
    var call := s.calls[c];
    AddAnswer(Store(cfg, Arrive(s, c), call, victim), call.proc, call.key, Some(call.info), FromDatabase)
  }

  // Delete removes the app's configuration rows in the transaction that removes the app.
  function DoCommit(s: State, w: Write): State
    requires s.history != []
  {
    var db := Db(s);
    s.(history := s.history + [Snapshot(s.now, After(db, w))],
       configRows := if w.Delete? && w.app in db
                     then set r | r in s.configRows && r.app != w.app
                     else s.configRows)
  }

  function Apply(cfg: Config, s: State, e: Event): (t: State)
    requires s.history != [] && Enabled(cfg, s, e)
    ensures t.history != []
  {
    match e
    case Tick(d) => s.(now := s.now + d)
    case Hit(p, key) => AddAnswer(s, p, key, Some(CacheOf(s, p)[key].info), FromCache)
    case Miss(c, p, key) => s.(calls := s.calls[c := Missed(p, key)])
    case Read(c) => DoRead(s, c)
    case ReadError(c) => s.(calls := s.calls - {c})
    case Fill(c, victim) => DoFill(cfg, s, c, victim)
    case Commit(w) => DoCommit(s, w)
    case Invalidate(p) => s.(caches := s.caches[p := map[]])
    case PutConfig(i, tag) =>
      s.(configRows := s.configRows + {ConfigRow(s.answers[i].result.value.appId, s.answers[i].at, s.now, tag)})
  }

  ghost predicate Legal(cfg: Config, s: State, es: seq<Event>)
    requires s.history != []
    decreases |es|
  {
    es == [] || (Enabled(cfg, s, es[0]) && Legal(cfg, Apply(cfg, s, es[0]), es[1..]))
  }

  ghost function Exec(cfg: Config, s: State, es: seq<Event>): (t: State)
    requires s.history != [] && Legal(cfg, s, es)
    ensures t.history != []
    decreases |es|
  {
    if es == [] then s else Exec(cfg, Apply(cfg, s, es[0]), es[1..])
  }

  // ---- what the registry said, and when ----

  // `result` is what the database would have answered at instant t (a commit at t itself
  // may count as before or after).
  ghost predicate Current(history: seq<Snapshot>, key: KeyHash, result: Option<AppInfo>, t: int) {
    exists i :: CurrentAs(history, i, key, result, t)
  }

  ghost predicate CurrentAs(history: seq<Snapshot>, i: int, key: KeyHash, result: Option<AppInfo>, t: int) {
    && 0 <= i < |history|
    && history[i].since <= t
    && (i + 1 < |history| ==> t <= history[i + 1].since)
    && Lookup(history[i].db, key) == result
  }

  ghost predicate CurrentWithin(history: seq<Snapshot>, key: KeyHash, result: Option<AppInfo>, lo: int, hi: int) {
    exists t :: lo <= t <= hi && Current(history, key, result, t)
  }

  ghost predicate Ordered(history: seq<Snapshot>, now: int) {
    && history != []
    && (forall i, j | 0 <= i < j < |history| :: history[i].since <= history[j].since)
    && history[|history| - 1].since <= now
  }

  // How old a given answer may be.
  ghost predicate Fresh(cfg: Config, history: seq<Snapshot>, lag: int, a: Answer) {
    match a.source
    case FromCache =>
      a.result.Some? && CurrentWithin(history, a.key, a.result, a.at - cfg.ttl - lag + 1, a.at)
    case FromDatabase =>
      a.result.Some? && CurrentWithin(history, a.key, a.result, a.at - lag, a.at)
    case NoSuchKey =>
      a.result.None? && Current(history, a.key, None, a.at)
  }

  ghost predicate CacheOk(cfg: Config, s: State, cache: Cache) {
    forall k | k in cache ::
      var filled := cache[k].expiresAt - cfg.ttl;
      filled <= s.now && CurrentWithin(s.history, k, Some(cache[k].info), filled - s.lag, filled)
  }

  ghost predicate CallOk(s: State, call: Call) {
    call.Fetched? ==> call.readAt <= s.now && Current(s.history, call.key, Some(call.info), call.readAt)
  }

  ghost predicate Inv(cfg: Config, s: State) {
    && s.lag >= 0
    && Ordered(s.history, s.now)
    && (forall p | p in s.caches :: CacheOk(cfg, s, s.caches[p]))
    && (forall c | c in s.calls :: CallOk(s, s.calls[c]))
    && (forall i | 0 <= i < |s.answers| :: s.answers[i].at <= s.now && Fresh(cfg, s.history, s.lag, s.answers[i]))
  }

  // ---- preservation ----

  lemma CurrentNow(s: State, key: KeyHash)
    requires Ordered(s.history, s.now)
    ensures Current(s.history, key, Lookup(Db(s), key), s.now)
  {
    assert CurrentAs(s.history, |s.history| - 1, key, Lookup(Db(s), key), s.now);
  }

  // A commit adds to the past and never rewrites it.
  lemma CurrentLasts(history: seq<Snapshot>, snap: Snapshot, key: KeyHash, result: Option<AppInfo>, t: int)
    requires Current(history, key, result, t) && t <= snap.since
    ensures Current(history + [snap], key, result, t)
  {
    var i :| CurrentAs(history, i, key, result, t);
    assert CurrentAs(history + [snap], i, key, result, t);
  }

  lemma WithinLasts(history: seq<Snapshot>, snap: Snapshot, key: KeyHash, result: Option<AppInfo>, lo: int, hi: int)
    requires CurrentWithin(history, key, result, lo, hi) && hi <= snap.since
    ensures CurrentWithin(history + [snap], key, result, lo, hi)
  {
    var t :| lo <= t <= hi && Current(history, key, result, t);
    CurrentLasts(history, snap, key, result, t);
  }

  lemma CommitKeepsInv(cfg: Config, s: State, w: Write)
    requires Inv(cfg, s)
    ensures Inv(cfg, DoCommit(s, w))
  {
    var t := DoCommit(s, w);
    var snap := Snapshot(s.now, After(Db(s), w));
    forall p | p in t.caches ensures CacheOk(cfg, t, t.caches[p]) {
      var cache := s.caches[p];
      assert CacheOk(cfg, s, cache);
      forall k | k in cache
        ensures CurrentWithin(t.history, k, Some(cache[k].info), cache[k].expiresAt - cfg.ttl - s.lag, cache[k].expiresAt - cfg.ttl)
      {
        WithinLasts(s.history, snap, k, Some(cache[k].info), cache[k].expiresAt - cfg.ttl - s.lag, cache[k].expiresAt - cfg.ttl);
      }
    }
    forall c | c in t.calls ensures CallOk(t, t.calls[c]) {
      var call := s.calls[c];
      assert CallOk(s, call);
      if call.Fetched? {
        CurrentLasts(s.history, snap, call.key, Some(call.info), call.readAt);
      }
    }
    forall i | 0 <= i < |t.answers| ensures t.answers[i].at <= t.now && Fresh(cfg, t.history, t.lag, t.answers[i]) {
      var a := s.answers[i];
      assert Fresh(cfg, s.history, s.lag, a);
      match a.source
      case FromCache => WithinLasts(s.history, snap, a.key, a.result, a.at - cfg.ttl - s.lag + 1, a.at);
      case FromDatabase => WithinLasts(s.history, snap, a.key, a.result, a.at - s.lag, a.at);
      case NoSuchKey => CurrentLasts(s.history, snap, a.key, None, a.at);
    }
  }

  lemma WithinWidens(history: seq<Snapshot>, key: KeyHash, result: Option<AppInfo>, lo: int, hi: int, lo': int, hi': int)
    requires CurrentWithin(history, key, result, lo, hi) && lo' <= lo && hi <= hi'
    ensures CurrentWithin(history, key, result, lo', hi')
  {
    var t :| lo <= t <= hi && Current(history, key, result, t);
    assert lo' <= t <= hi';
  }

  lemma LagWidens(cfg: Config, s: State, lag: int)
    requires Inv(cfg, s) && s.lag <= lag
    ensures Inv(cfg, s.(lag := lag))
  {
    var t := s.(lag := lag);
    forall p | p in t.caches ensures CacheOk(cfg, t, t.caches[p]) {
      var cache := s.caches[p];
      assert CacheOk(cfg, s, cache);
      forall k | k in cache
        ensures CurrentWithin(t.history, k, Some(cache[k].info), cache[k].expiresAt - cfg.ttl - lag, cache[k].expiresAt - cfg.ttl)
      {
        var filled := cache[k].expiresAt - cfg.ttl;
        WithinWidens(s.history, k, Some(cache[k].info), filled - s.lag, filled, filled - lag, filled);
      }
    }
    forall i | 0 <= i < |t.answers| ensures t.answers[i].at <= t.now && Fresh(cfg, t.history, t.lag, t.answers[i]) {
      var a := s.answers[i];
      assert Fresh(cfg, s.history, s.lag, a);
      match a.source
      case FromCache =>
        WithinWidens(s.history, a.key, a.result, a.at - cfg.ttl - s.lag + 1, a.at, a.at - cfg.ttl - lag + 1, a.at);
      case FromDatabase => WithinWidens(s.history, a.key, a.result, a.at - s.lag, a.at, a.at - lag, a.at);
      case NoSuchKey =>
    }
  }

  lemma AnswerKeepsInv(cfg: Config, s: State, p: nat, key: KeyHash, result: Option<AppInfo>, source: Source)
    requires Inv(cfg, s)
    requires Fresh(cfg, s.history, s.lag, Answer(p, key, result, s.now, source, |s.history| - 1))
    ensures Inv(cfg, AddAnswer(s, p, key, result, source))
  {
    var t := AddAnswer(s, p, key, result, source);
    forall i | 0 <= i < |t.answers| ensures t.answers[i].at <= t.now && Fresh(cfg, t.history, t.lag, t.answers[i]) {
      if i < |s.answers| { assert t.answers[i] == s.answers[i]; }
    }
    forall q | q in t.caches ensures CacheOk(cfg, t, t.caches[q]) {
      assert CacheOk(cfg, s, s.caches[q]);
    }
    forall c | c in t.calls ensures CallOk(t, t.calls[c]) {
      assert CallOk(s, s.calls[c]);
    }
  }

  lemma CacheKeepsInv(cfg: Config, s: State, p: nat, cache: Cache)
    requires Inv(cfg, s) && CacheOk(cfg, s, cache)
    ensures Inv(cfg, s.(caches := s.caches[p := cache]))
  {
    var t := s.(caches := s.caches[p := cache]);
    forall q | q in t.caches ensures CacheOk(cfg, t, t.caches[q]) {
      assert q != p ==> CacheOk(cfg, s, s.caches[q]);
    }
    forall c | c in t.calls ensures CallOk(t, t.calls[c]) {
      assert CallOk(s, s.calls[c]);
    }
  }

  lemma CallsKeepInv(cfg: Config, s: State, calls: map<nat, Call>)
    requires Inv(cfg, s) && forall c | c in calls :: CallOk(s, calls[c])
    ensures Inv(cfg, s.(calls := calls))
  {
    var t := s.(calls := calls);
    forall p | p in t.caches ensures CacheOk(cfg, t, t.caches[p]) {
      assert CacheOk(cfg, s, s.caches[p]);
    }
    forall c | c in t.calls ensures CallOk(t, t.calls[c]) {
      assert CallOk(s, calls[c]);
    }
  }

  lemma FilledCacheOk(cfg: Config, s: State, cache: Cache, victim: Option<KeyHash>, key: KeyHash, info: AppInfo)
    requires CacheOk(cfg, s, cache)
    requires CurrentWithin(s.history, key, Some(info), s.now - s.lag, s.now)
    ensures CacheOk(cfg, s, Evict(cache, victim)[key := Entry(info, s.now + cfg.ttl)])
  {
    var filled := Evict(cache, victim)[key := Entry(info, s.now + cfg.ttl)];
    forall k | k in filled
      ensures filled[k].expiresAt - cfg.ttl <= s.now
      ensures CurrentWithin(s.history, k, Some(filled[k].info), filled[k].expiresAt - cfg.ttl - s.lag, filled[k].expiresAt - cfg.ttl)
    {
      if k != key { assert k in cache && filled[k] == cache[k]; }
    }
  }

  lemma ArriveKeepsInv(cfg: Config, s: State, c: nat)
    requires Inv(cfg, s) && c in s.calls && s.calls[c].Fetched?
    ensures var u := Arrive(s, c);
            Inv(cfg, u) && CurrentWithin(u.history, s.calls[c].key, Some(s.calls[c].info), u.now - u.lag, u.now)
  {
    var u := Arrive(s, c);
    assert CallOk(s, s.calls[c]);
    LagWidens(cfg, s, u.lag);
    CallsKeepInv(cfg, s.(lag := u.lag), s.calls - {c});
  }

  lemma StoreKeepsInv(cfg: Config, s: State, call: Call, victim: Option<KeyHash>)
    requires Inv(cfg, s) && call.Fetched?
    requires CurrentWithin(s.history, call.key, Some(call.info), s.now - s.lag, s.now)
    ensures Inv(cfg, Store(cfg, s, call, victim))
  {
    assert CacheOk(cfg, s, CacheOf(s, call.proc));
    FilledCacheOk(cfg, s, CacheOf(s, call.proc), victim, call.key, call.info);
    CacheKeepsInv(cfg, s, call.proc, Evict(CacheOf(s, call.proc), victim)[call.key := Entry(call.info, s.now + cfg.ttl)]);
  }

  lemma FillKeepsInv(cfg: Config, s: State, c: nat, victim: Option<KeyHash>)
    requires Inv(cfg, s) && c in s.calls && s.calls[c].Fetched?
    ensures Inv(cfg, DoFill(cfg, s, c, victim))
  {
    ArriveKeepsInv(cfg, s, c);
    StoreKeepsInv(cfg, Arrive(s, c), s.calls[c], victim);
    var call := s.calls[c];
    AnswerKeepsInv(cfg, Store(cfg, Arrive(s, c), call, victim), call.proc, call.key, Some(call.info), FromDatabase);
  }

  lemma HitKeepsInv(cfg: Config, s: State, p: nat, key: KeyHash)
    requires Inv(cfg, s) && Live(CacheOf(s, p), key, s.now)
    ensures Inv(cfg, Apply(cfg, s, Hit(p, key)))
  {
    var entry := CacheOf(s, p)[key];
    var filled := entry.expiresAt - cfg.ttl;
    assert CacheOk(cfg, s, s.caches[p]);
    WithinWidens(s.history, key, Some(entry.info), filled - s.lag, filled, s.now - cfg.ttl - s.lag + 1, s.now);
    AnswerKeepsInv(cfg, s, p, key, Some(entry.info), FromCache);
  }

  lemma ReadKeepsInv(cfg: Config, s: State, c: nat)
    requires Inv(cfg, s) && c in s.calls && s.calls[c].Missed?
    ensures Inv(cfg, DoRead(s, c))
  {
    var call := s.calls[c];
    CurrentNow(s, call.key);
    var found := Lookup(Db(s), call.key);
    if found.None? {
      CallsKeepInv(cfg, s, s.calls - {c});
      AnswerKeepsInv(cfg, s.(calls := s.calls - {c}), call.proc, call.key, None, NoSuchKey);
    } else {
      CallsKeepInv(cfg, s, s.calls[c := Fetched(call.proc, call.key, found.value, s.now)]);
    }
  }

  lemma TickKeepsInv(cfg: Config, s: State, d: nat)
    requires Inv(cfg, s)
    ensures Inv(cfg, s.(now := s.now + d))
  {
    var t := s.(now := s.now + d);
    forall p | p in t.caches ensures CacheOk(cfg, t, t.caches[p]) {
      assert CacheOk(cfg, s, s.caches[p]);
    }
    forall c | c in t.calls ensures CallOk(t, t.calls[c]) {
      assert CallOk(s, s.calls[c]);
    }
  }

  lemma StepKeepsInv(cfg: Config, s: State, e: Event)
    requires Inv(cfg, s) && Enabled(cfg, s, e)
    ensures Inv(cfg, Apply(cfg, s, e))
  {
    match e
    case Hit(p, key) => HitKeepsInv(cfg, s, p, key);
    case Fill(c, victim) => FillKeepsInv(cfg, s, c, victim);
    case Commit(w) => CommitKeepsInv(cfg, s, w);
    case Read(c) => ReadKeepsInv(cfg, s, c);
    case ReadError(c) => CallsKeepInv(cfg, s, s.calls - {c});
    case Miss(c, p, key) => CallsKeepInv(cfg, s, s.calls[c := Missed(p, key)]);
    case Invalidate(p) => CacheKeepsInv(cfg, s, p, map[]);
    case Tick(d) => TickKeepsInv(cfg, s, d);
    case PutConfig(i, tag) =>
  }

  lemma {:induction false} RunKeepsInv(cfg: Config, s: State, es: seq<Event>)
    requires Inv(cfg, s) && Legal(cfg, s, es)
    ensures Inv(cfg, Exec(cfg, s, es))
    decreases |es|
  {
    if es != [] {
      StepKeepsInv(cfg, s, es[0]);
      RunKeepsInv(cfg, Apply(cfg, s, es[0]), es[1..]);
    }
  }
}
