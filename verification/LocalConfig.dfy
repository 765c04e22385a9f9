/**
 The local ASR settings: a table of partial overrides over the server's defaults, changed by
 patches, resets and deletes, and the handlers that guard what goes in.
 */
module LocalConfig {
  import opened Wrappers

  datatype ScopeKey = ScopeKey(appId: string, subjectId: string, scopeType: string, scopeId: string)

  // A row of local_asr_config; None is SQL NULL.
  datatype Row = Row(enabled: bool, timeoutMs: Option<int>, probeUrl: Option<string>, transcribeUrl: Option<string>)

  datatype Settings = Settings(enabled: bool, timeoutMs: int, probeUrl: string, transcribeUrl: string)

  datatype Patch = Patch(enabled: bool, timeoutMs: Option<int>, probeUrl: Option<string>, transcribeUrl: Option<string>)

  type Table = map<ScopeKey, Row>

  datatype Op =
    | Upsert(key: ScopeKey, patch: Patch)
    | Reset(key: ScopeKey, enabled: bool)
    | Delete(key: ScopeKey)
    | DeleteApp(appId: string)  // the cascade of AppStore.Delete

  function Or<T>(a: Option<T>, b: Option<T>): Option<T> {
    if a.Some? then a else b
  }

  function GetOr<T>(a: Option<T>, default: T): T {
    if a.Some? then a.value else default
  }

  function Patched(row: Option<Row>, p: Patch): Row {
    if row.None? then Row(p.enabled, p.timeoutMs, p.probeUrl, p.transcribeUrl)
    else Row(p.enabled, Or(p.timeoutMs, row.value.timeoutMs), Or(p.probeUrl, row.value.probeUrl),
             Or(p.transcribeUrl, row.value.transcribeUrl))
  }

  function RowOf(t: Table, key: ScopeKey): Option<Row> {
    if key in t then Some(t[key]) else None
  }

  function Apply(t: Table, op: Op): Table {
    match op
    case Upsert(key, p) => t[key := Patched(RowOf(t, key), p)]
    case Reset(key, enabled) => t[key := Row(enabled, None, None, None)]
    case Delete(key) => t - {key}
    case DeleteApp(app) => map k | k in t && k.appId != app :: t[k]
  }

  function Replay(ops: seq<Op>): Table {
    if ops == [] then map[] else Apply(Replay(ops[..|ops| - 1]), ops[|ops| - 1])
  }

  predicate Complete(key: ScopeKey) {
    key.appId != "" && key.subjectId != "" && key.scopeType != "" && key.scopeId != ""
  }

  function Effective(defaults: Settings, t: Table, key: ScopeKey): Settings {
    if !Complete(key) || key !in t then defaults
    else Settings(t[key].enabled, GetOr(t[key].timeoutMs, defaults.timeoutMs),
                  GetOr(t[key].probeUrl, defaults.probeUrl), GetOr(t[key].transcribeUrl, defaults.transcribeUrl))
  }

  // ---- the statements ----

  // Column assignments beyond `enabled`, in the order Upsert collects them.
  datatype Assign = TimeoutMs(ms: int) | ProbeUrl(url: string) | TranscribeUrl(url: string)

  function Assigning(row: Row, a: Assign): Row {
    match a
    case TimeoutMs(ms) => row.(timeoutMs := Some(ms))
    case ProbeUrl(url) => row.(probeUrl := Some(url))
    case TranscribeUrl(url) => row.(transcribeUrl := Some(url))
  }

  function Assigned(row: Row, updates: seq<Assign>): Row {
    if updates == [] then row else Assigning(Assigned(row, updates[..|updates| - 1]), updates[|updates| - 1])
  }

  // INSERT INTO local_asr_config (key columns, enabled, ...) VALUES (...)
  // ON DUPLICATE KEY UPDATE enabled=VALUES(enabled), ...: the columns not named are NULL in a
  // new row and keep their value in an old one.
  function InsertOrUpdate(t: Table, key: ScopeKey, enabled: bool, updates: seq<Assign>): Table {
    t[key := Assigned(if key in t then t[key].(enabled := enabled) else Row(enabled, None, None, None), updates)]
  }

  lemma AssignedSnoc(row: Row, updates: seq<Assign>, a: Assign)
    ensures Assigned(row, updates + [a]) == Assigning(Assigned(row, updates), a)
  {
    assert (updates + [a])[..|updates|] == updates;
  }

  // Appending a column that was given.
  method Collect(updates: seq<Assign>, ghost row: Row, a: Option<Assign>) returns (r: seq<Assign>)
    ensures Assigned(row, r) == if a.Some? then Assigning(Assigned(row, updates), a.value) else Assigned(row, updates)
  {
    r := updates;
    if a.Some? {
      AssignedSnoc(row, updates, a.value);
      r := r + [a.value];
    }
  }

  class LocalConfigStore {
    var rows: Table
    const defaults: Settings

    constructor (defaults: Settings)
      ensures rows == map[] && this.defaults == defaults
    {
      rows := map[];
      this.defaults := defaults;
    }

    // `fails` is the driver's verdict; a statement that fails has changed nothing.
    method Upsert(key: ScopeKey, enabled: bool, timeoutMs: Option<int>, probeUrl: Option<string>,
                  transcribeUrl: Option<string>, fails: bool) returns (ok: bool)
      modifies this`rows
      ensures ok == !fails
      ensures rows == if ok then Apply(old(rows), Op.Upsert(key, Patch(enabled, timeoutMs, probeUrl, transcribeUrl)))
                      else old(rows)
    {
      var updates := [];
      ghost var row := if key in rows then rows[key].(enabled := enabled) else Row(enabled, None, None, None);
      updates := Collect(updates, row, if timeoutMs.Some? then Some(TimeoutMs(timeoutMs.value)) else None);
      updates := Collect(updates, row, if probeUrl.Some? then Some(ProbeUrl(probeUrl.value)) else None);
      updates := Collect(updates, row, if transcribeUrl.Some? then Some(TranscribeUrl(transcribeUrl.value)) else None);
      if fails {
        return false;
      }
      rows := InsertOrUpdate(rows, key, enabled, updates);
      ok := true;
    }

    method ResetToDefault(key: ScopeKey, enabled: bool, fails: bool) returns (ok: bool)
      modifies this`rows
      ensures ok == !fails
      ensures rows == if ok then Apply(old(rows), Op.Reset(key, enabled)) else old(rows)
    {
      if fails {
        return false;
      }
      if key in rows {
        rows := rows[key := rows[key].(enabled := enabled, timeoutMs := None, probeUrl := None, transcribeUrl := None)];
      } else {
        rows := rows[key := Row(enabled, None, None, None)];
      }
      ok := true;
    }

    method Delete(key: ScopeKey, fails: bool) returns (affected: Option<nat>)
      modifies this`rows
      ensures affected == if fails then None else Some(if key in old(rows) then 1 else 0)
      ensures rows == if fails then old(rows) else Apply(old(rows), Op.Delete(key))
    {
      if fails {
        return None;
      }
      affected := Some(if key in rows then 1 else 0);
      rows := rows - {key};
    }

    method Query(key: ScopeKey, fails: bool) returns (r: Option<Settings>)
      ensures r == if fails && Complete(key) then None else Some(Effective(defaults, rows, key))
      ensures key.appId == "" || key.subjectId == "" || key.scopeType == "" || key.scopeId == "" ==> r == Some(defaults)
    {
      var result := defaults;
      if key.appId == "" || key.subjectId == "" || key.scopeType == "" || key.scopeId == "" {
        return Some(result);
      }
      if fails {
        return None;
      }
      if key !in rows {
        return Some(result);
      }
      result := result.(enabled := rows[key].enabled);
      if rows[key].timeoutMs.Some? {
        result := result.(timeoutMs := rows[key].timeoutMs.value);
      }
      if rows[key].probeUrl.Some? {
        result := result.(probeUrl := rows[key].probeUrl.value);
      }
      if rows[key].transcribeUrl.Some? {
        result := result.(transcribeUrl := rows[key].transcribeUrl.value);
      }
      r := Some(result);
    }
  }

  // ---- the settings are the last values written ----

  // What one operation says about one field of one key: a value, back to the default, or nothing.
  datatype Says<T> = Sets(value: T) | Clears | Silent

  predicate Removes(op: Op, key: ScopeKey) {
    op == Op.Delete(key) || (op.DeleteApp? && op.appId == key.appId)
  }

  function SaysEnabled(op: Op, key: ScopeKey): Says<bool> {
    if op.Upsert? && op.key == key then Sets(op.patch.enabled)
    else if op.Reset? && op.key == key then Sets(op.enabled)
    else if Removes(op, key) then Clears
    else Silent
  }

  function SaysOptional<T>(op: Op, key: ScopeKey, field: Patch -> Option<T>): Says<T> {
    if op.Upsert? && op.key == key then (if field(op.patch).Some? then Sets(field(op.patch).value) else Silent)
    else if op.Reset? && op.key == key then Clears
    else if Removes(op, key) then Clears
    else Silent
  }

  // The last word of a history on a field.
  function LastWord<T>(ops: seq<Op>, says: Op -> Says<T>): Option<T> {
    if ops == [] then None
    else match says(ops[|ops| - 1])
      case Sets(v) => Some(v)
      case Clears => None
      case Silent => LastWord(ops[..|ops| - 1], says)
  }

  function History(ops: seq<Op>, key: ScopeKey, defaults: Settings): Settings {
    Settings(GetOr(LastWord(ops, op => SaysEnabled(op, key)), defaults.enabled),
             GetOr(LastWord(ops, op => SaysOptional(op, key, (p: Patch) => p.timeoutMs)), defaults.timeoutMs),
             GetOr(LastWord(ops, op => SaysOptional(op, key, (p: Patch) => p.probeUrl)), defaults.probeUrl),
             GetOr(LastWord(ops, op => SaysOptional(op, key, (p: Patch) => p.transcribeUrl)), defaults.transcribeUrl))
  }

  lemma {:induction false} RowIsLastWord(ops: seq<Op>, key: ScopeKey)
    ensures var row := RowOf(Replay(ops), key);
            && LastWord(ops, op => SaysEnabled(op, key)) == (if row.Some? then Some(row.value.enabled) else None)
            && LastWord(ops, op => SaysOptional(op, key, (p: Patch) => p.timeoutMs)) == (if row.Some? then row.value.timeoutMs else None)
            && LastWord(ops, op => SaysOptional(op, key, (p: Patch) => p.probeUrl)) == (if row.Some? then row.value.probeUrl else None)
            && LastWord(ops, op => SaysOptional(op, key, (p: Patch) => p.transcribeUrl)) == (if row.Some? then row.value.transcribeUrl else None)
  {
    if ops != [] {
      RowIsLastWord(ops[..|ops| - 1], key);
    }
  }

  // For every history of patches, resets and deletes: each field reads as the last value
  // written to it since it was last cleared, else as the server's default.
  lemma QueryIsLastWrite(ops: seq<Op>, key: ScopeKey, defaults: Settings)
    requires Complete(key)
    ensures Effective(defaults, Replay(ops), key) == History(ops, key, defaults)
  {
    RowIsLastWord(ops, key);
  }

  // ---- algebra of patches ----

  // Two patches in a row are one.
  lemma PatchesCompose(t: Table, key: ScopeKey, p: Patch, q: Patch)
    ensures Apply(Apply(t, Op.Upsert(key, p)), Op.Upsert(key, q))
         == Apply(t, Op.Upsert(key, Patch(q.enabled, Or(q.timeoutMs, p.timeoutMs), Or(q.probeUrl, p.probeUrl),
                                          Or(q.transcribeUrl, p.transcribeUrl))))
  {
  }

  // ---- the handlers ----

  const OK := 200
  const BAD_REQUEST := 400
  const NOT_FOUND := 404
  const SERVER_ERROR := 500

  predicate IsValidScopeType(s: string) {
    s == "global" || s == "space" || s == "org" || s == "project"
  }

  predicate WellScoped(key: ScopeKey) {
    key.subjectId != "" && key.scopeId != "" && IsValidScopeType(key.scopeType)
  }

  predicate TimeoutInRange(ms: int) {
    1 <= ms <= 60000
  }

  predicate Acceptable(key: ScopeKey, enabled: Option<bool>, timeoutMs: Option<int>, probeUrl: Option<string>,
                       transcribeUrl: Option<string>, urlOk: string -> bool)
  {
    && WellScoped(key) && enabled.Some?
    && (timeoutMs.Some? ==> TimeoutInRange(timeoutMs.value))
    && (probeUrl.Some? ==> urlOk(probeUrl.value))
    && (transcribeUrl.Some? ==> urlOk(transcribeUrl.value))
  }

  ghost predicate TimeoutsOk(t: Table) {
    forall k | k in t && t[k].timeoutMs.Some? :: TimeoutInRange(t[k].timeoutMs.value)
  }

  // Every address in the table passed the validation.
  ghost predicate UrlsOk(t: Table, urlOk: string -> bool) {
    forall k | k in t ::
      && (t[k].probeUrl.Some? ==> urlOk(t[k].probeUrl.value))
      && (t[k].transcribeUrl.Some? ==> urlOk(t[k].transcribeUrl.value))
  }

  // `urlOk` is validateLocalURL.
  method Put(store: LocalConfigStore, key: ScopeKey, enabled: Option<bool>, timeoutMs: Option<int>,
             probeUrl: Option<string>, transcribeUrl: Option<string>, urlOk: string -> bool, fails: bool)
      returns (status: int)
    modifies store`rows
    ensures status == if !Acceptable(key, enabled, timeoutMs, probeUrl, transcribeUrl, urlOk) then BAD_REQUEST
                      else if fails then SERVER_ERROR else OK
    // 400 answers exactly these requests, whatever the database says.
    ensures status == 400 <==>
      || key.subjectId == "" || key.scopeId == "" || key.scopeType !in {"global", "space", "org", "project"}
      || enabled.None? || (timeoutMs.Some? && !(1 <= timeoutMs.value <= 60000))
      || (probeUrl.Some? && !urlOk(probeUrl.value)) || (transcribeUrl.Some? && !urlOk(transcribeUrl.value))
    ensures status == OK ==>
      store.rows == Apply(old(store.rows), Op.Upsert(key, Patch(enabled.value, timeoutMs, probeUrl, transcribeUrl)))
    ensures status != OK ==> store.rows == old(store.rows)
    ensures TimeoutsOk(old(store.rows)) ==> TimeoutsOk(store.rows)
    ensures UrlsOk(old(store.rows), urlOk) ==> UrlsOk(store.rows, urlOk)
  {
    if key.subjectId == "" || key.scopeType == "" || key.scopeId == "" {
      return BAD_REQUEST;
    }
    if !IsValidScopeType(key.scopeType) {
      return BAD_REQUEST;
    }
    if enabled.None? {
      return BAD_REQUEST;
    }
    if timeoutMs.Some? {
      if timeoutMs.value < 1 || timeoutMs.value > 60000 {
        return BAD_REQUEST;
      }
    }
    if probeUrl.Some? && !urlOk(probeUrl.value) {
      return BAD_REQUEST;
    }
    if transcribeUrl.Some? && !urlOk(transcribeUrl.value) {
      return BAD_REQUEST;
    }
    var ok := store.Upsert(key, enabled.value, timeoutMs, probeUrl, transcribeUrl, fails);
    status := if ok then OK else SERVER_ERROR;
  }

  function ResetReply(defaults: Settings, enabled: bool): Settings {
    defaults.(enabled := enabled)
  }

  method ResetHandler(store: LocalConfigStore, key: ScopeKey, enabled: Option<bool>, fails: bool)
      returns (status: int, reply: Option<Settings>)
    modifies store`rows
    ensures status == if !WellScoped(key) || enabled.None? then BAD_REQUEST else if fails then SERVER_ERROR else OK
    ensures status == 400 <==>
      || key.subjectId == "" || key.scopeId == "" || key.scopeType !in {"global", "space", "org", "project"}
      || enabled.None?
    ensures status == OK ==> store.rows == Apply(old(store.rows), Op.Reset(key, enabled.value))
    ensures status == OK ==> reply == Some(ResetReply(store.defaults, enabled.value))
    ensures status != OK ==> store.rows == old(store.rows) && reply.None?
    ensures TimeoutsOk(old(store.rows)) ==> TimeoutsOk(store.rows)
    ensures forall urlOk: string -> bool :: UrlsOk(old(store.rows), urlOk) ==> UrlsOk(store.rows, urlOk)
  {
    if key.subjectId == "" || key.scopeType == "" || key.scopeId == "" || !IsValidScopeType(key.scopeType) || enabled.None? {
      return BAD_REQUEST, None;
    }
    var ok := store.ResetToDefault(key, enabled.value, fails);
    if !ok {
      return SERVER_ERROR, None;
    }
    status, reply := OK, Some(store.defaults.(enabled := enabled.value));
  }

  method DeleteHandler(store: LocalConfigStore, key: ScopeKey, fails: bool) returns (status: int)
    modifies store`rows
    ensures status == if !WellScoped(key) then BAD_REQUEST else if fails then SERVER_ERROR
                      else if key !in old(store.rows) then NOT_FOUND else OK
    ensures status in {200, 400, 404, 500}
    ensures status == 400 <==>
      key.subjectId == "" || key.scopeId == "" || key.scopeType !in {"global", "space", "org", "project"}
    ensures status == 404 <==> WellScoped(key) && !fails && key !in old(store.rows)
    ensures store.rows == if status == OK then Apply(old(store.rows), Op.Delete(key)) else old(store.rows)
    ensures TimeoutsOk(old(store.rows)) ==> TimeoutsOk(store.rows)
    ensures forall urlOk: string -> bool :: UrlsOk(old(store.rows), urlOk) ==> UrlsOk(store.rows, urlOk)
  {
    if key.subjectId == "" || key.scopeType == "" || key.scopeId == "" || !IsValidScopeType(key.scopeType) {
      return BAD_REQUEST;
    }
    var affected := store.Delete(key, fails);
    if affected.None? {
      return SERVER_ERROR;
    }
    status := if affected.value == 0 then NOT_FOUND else OK;
  }

  // The reply to a reset is what the next query says for every caller that has an app id, which
  // is every authenticated one. Without an app id the query would not look at the row, and the
  // two would agree only where the server's default does.
  lemma ResetReplyIsNextQuery(defaults: Settings, t: Table, key: ScopeKey, enabled: bool)
    requires WellScoped(key)
    ensures Effective(defaults, Apply(t, Op.Reset(key, enabled)), key) == ResetReply(defaults, enabled)
            <==> key.appId != "" || enabled == defaults.enabled
  {
  }

  // ---- the timeout is always usable ----

  // An environment variable read as a number.
  datatype EnvInt = Unset | Malformed | Number(n: int)

  function GetEnvInt(v: EnvInt, default: int): (r: int)
    ensures r == default || (v == Number(r) && r > 0)
    ensures v.Number? && v.n > 0 ==> v == Number(r)
  {
    if v.Number? && v.n > 0 then v.n else default
  }

  // VOICE_LOCAL_TIMEOUT_MS
  function LoadLocalTimeout(v: EnvInt): (r: int)
    ensures TimeoutInRange(r)
    ensures v.Number? && TimeoutInRange(v.n) ==> r == v.n
    ensures v.Number? && v.n > 60000 ==> r == 60000
    ensures !v.Number? || v.n <= 0 ==> r == 10000
  {
    if v.Number? && v.n > 0 then Min(v.n, 60000) else 10000
  }

  // An operation that came through a handler, or the cascade of an app's deletion.
  predicate Validated(op: Op) {
    op.Upsert? && op.patch.timeoutMs.Some? ==> TimeoutInRange(op.patch.timeoutMs.value)
  }

  lemma {:induction false} ReplayKeepsTimeouts(ops: seq<Op>)
    requires forall i | 0 <= i < |ops| :: Validated(ops[i])
    ensures TimeoutsOk(Replay(ops))
  {
    if ops != [] {
      ReplayKeepsTimeouts(ops[..|ops| - 1]);
      assert Validated(ops[|ops| - 1]);
    }
  }

  lemma TimeoutIsAlwaysUsable(ops: seq<Op>, key: ScopeKey, env: EnvInt, defaults: Settings)
    requires forall i | 0 <= i < |ops| :: Validated(ops[i])
    requires defaults.timeoutMs == LoadLocalTimeout(env)
    ensures TimeoutInRange(Effective(defaults, Replay(ops), key).timeoutMs)
  {
    ReplayKeepsTimeouts(ops);
  }

  // ---- so are the addresses ----

  predicate UrlsValidated(op: Op, urlOk: string -> bool) {
    op.Upsert? ==>
      && (op.patch.probeUrl.Some? ==> urlOk(op.patch.probeUrl.value))
      && (op.patch.transcribeUrl.Some? ==> urlOk(op.patch.transcribeUrl.value))
  }

  // Patches that passed, resets, deletes and the cascade of an app's deletion.
  lemma StepKeepsUrls(t: Table, op: Op, urlOk: string -> bool)
    requires UrlsOk(t, urlOk) && UrlsValidated(op, urlOk)
    ensures UrlsOk(Apply(t, op), urlOk)
  {
  }

  lemma {:induction false} ReplayKeepsUrls(ops: seq<Op>, urlOk: string -> bool)
    requires forall i | 0 <= i < |ops| :: UrlsValidated(ops[i], urlOk)
    ensures UrlsOk(Replay(ops), urlOk)
  {
    if ops != [] {
      ReplayKeepsUrls(ops[..|ops| - 1], urlOk);
      assert UrlsValidated(ops[|ops| - 1], urlOk);
      StepKeepsUrls(Replay(ops[..|ops| - 1]), ops[|ops| - 1], urlOk);
    }
  }

  // Whatever was patched, reset and deleted, a client is sent to an address that passed the
  // validation or to the server's own.
  lemma UrlsAreAlwaysUsable(ops: seq<Op>, key: ScopeKey, defaults: Settings, urlOk: string -> bool)
    requires forall i | 0 <= i < |ops| :: UrlsValidated(ops[i], urlOk)
    ensures var s := Effective(defaults, Replay(ops), key);
            && (s.probeUrl == defaults.probeUrl || urlOk(s.probeUrl))
            && (s.transcribeUrl == defaults.transcribeUrl || urlOk(s.transcribeUrl))
  {
    ReplayKeepsUrls(ops, urlOk);
  }
}
