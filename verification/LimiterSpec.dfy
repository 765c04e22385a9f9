/**
 The login limiter on values. Calls and cleanup passes appear in the order in which they
 take the lock; their times were captured before, so they need not be in order.
 */
module LimiterSpec {
  import opened Wrappers

  datatype Config = Config(maxAttempts: int, window: int)

  datatype Event =
    | Call(ip: string, at: int)
    | Clean(at: int)

  // A run, its latest event outermost.
  datatype Trace = Empty | Then(before: Trace, last: Event)

  type Lists = map<string, seq<int>>

  // Of the first n times, those strictly later than `cut`, in their order.
  function LaterUpTo(ts: seq<int>, n: nat, cut: int): seq<int>
    requires n <= |ts|
  {
    if n == 0 then []
    else if ts[n - 1] > cut then LaterUpTo(ts, n - 1, cut) + [ts[n - 1]]
    else LaterUpTo(ts, n - 1, cut)
  }

  function Later(ts: seq<int>, cut: int): seq<int> {
    LaterUpTo(ts, |ts|, cut)
  }

  function ListOf(lists: Lists, ip: string): seq<int> {
    if ip in lists then lists[ip] else []
  }

  function StillCounted(cfg: Config, lists: Lists, ip: string, at: int): seq<int> {
    Later(ListOf(lists, ip), at - cfg.window)
  }

  predicate Allows(cfg: Config, lists: Lists, ip: string, at: int) {
    |StillCounted(cfg, lists, ip, at)| < cfg.maxAttempts
  }

  function AfterCall(cfg: Config, lists: Lists, ip: string, at: int): Lists {
    var valid := StillCounted(cfg, lists, ip, at);
    lists[ip := if Allows(cfg, lists, ip, at) then valid + [at] else valid]
  }

  function AfterClean(cfg: Config, lists: Lists, at: int): Lists {
    map ip | ip in lists && Later(lists[ip], at - cfg.window) != [] :: Later(lists[ip], at - cfg.window)
  }

  function Step(cfg: Config, lists: Lists, e: Event): Lists {
    match e
    case Call(ip, at) => AfterCall(cfg, lists, ip, at)
    case Clean(at) => AfterClean(cfg, lists, at)
  }

  function Run(cfg: Config, tr: Trace): Lists {
    match tr
    case Empty => map[]
    case Then(before, e) => Step(cfg, Run(cfg, before), e)
  }

  // What an event adds to the admissions of one address.
  function Admission(cfg: Config, lists: Lists, e: Event, ip: string): seq<int> {
    if e.Call? && e.ip == ip && Allows(cfg, lists, ip, e.at) then [e.at] else []
  }

  // Every admission of one address in a run, never pruned.
  function Admitted(cfg: Config, tr: Trace, ip: string): seq<int> {
    match tr
    case Empty => []
    case Then(before, e) => Admitted(cfg, before, ip) + Admission(cfg, Run(cfg, before), e, ip)
  }

  // ---- filtering ----

  lemma {:induction false} LaterOfLonger(ts: seq<int>, more: seq<int>, n: nat, cut: int)
    requires n <= |ts|
    ensures LaterUpTo(ts + more, n, cut) == LaterUpTo(ts, n, cut)
  {
    if n > 0 { LaterOfLonger(ts, more, n - 1, cut); }
  }

  lemma LaterSnoc(ts: seq<int>, t: int, cut: int)
    ensures Later(ts + [t], cut) == if t > cut then Later(ts, cut) + [t] else Later(ts, cut)
  {
    LaterOfLonger(ts, [t], |ts|, cut);
  }

  lemma {:induction false} LaterLaterUpTo(ts: seq<int>, n: nat, a: int, b: int)
    requires a <= b && n <= |ts|
    ensures Later(LaterUpTo(ts, n, a), b) == LaterUpTo(ts, n, b)
  {
    if n > 0 {
      LaterLaterUpTo(ts, n - 1, a, b);
      LaterSnoc(LaterUpTo(ts, n - 1, a), ts[n - 1], b);
    }
  }

  lemma LaterLater(ts: seq<int>, a: int, b: int)
    requires a <= b
    ensures Later(Later(ts, a), b) == Later(ts, b)
  {
    LaterLaterUpTo(ts, |ts|, a, b);
  }

  lemma {:induction false} LaterIsShorter(ts: seq<int>, n: nat, cut: int)
    requires n <= |ts|
    ensures |LaterUpTo(ts, n, cut)| <= n
  {
    if n > 0 { LaterIsShorter(ts, n - 1, cut); }
  }

  lemma {:induction false} LaterIsLater(ts: seq<int>, n: nat, cut: int)
    requires n <= |ts|
    ensures forall t | t in LaterUpTo(ts, n, cut) :: t in ts && t > cut
  {
    if n > 0 { LaterIsLater(ts, n - 1, cut); }
  }

  // After a cleanup every address that is left has an admission that still counts, and no other.
  lemma NothingStaleAfterClean(cfg: Config, lists: Lists, at: int)
    ensures forall ip | ip in AfterClean(cfg, lists, at) ::
      ip in lists && AllCount(cfg, AfterClean(cfg, lists, at)[ip], lists[ip], at)
  {
    forall ip | ip in AfterClean(cfg, lists, at)
      ensures ip in lists && AllCount(cfg, AfterClean(cfg, lists, at)[ip], lists[ip], at)
    {
      LaterIsLater(lists[ip], |lists[ip]|, at - cfg.window);
    }
  }

  ghost predicate AllCount(cfg: Config, list: seq<int>, before: seq<int>, at: int) {
    list != [] && forall t | t in list :: t in before && t > at - cfg.window
  }

  // ---- pruning forgets nothing that still matters ----

  // Every time in the run is at most `limit`.
  predicate AllBy(tr: Trace, limit: int) {
    tr.Empty? || (tr.last.at <= limit && AllBy(tr.before, limit))
  }

  lemma CallAgrees(cfg: Config, list: seq<int>, log: seq<int>, at: int, cut: int)
    requires Later(list, cut) == Later(log, cut) && at - cfg.window <= cut
    ensures var valid := Later(list, at - cfg.window);
            Later(valid, cut) == Later(log, cut) && Later(valid + [at], cut) == Later(log + [at], cut)
  {
    var valid := Later(list, at - cfg.window);
    LaterLater(list, at - cfg.window, cut);
    LaterSnoc(valid, at, cut);
    LaterSnoc(log, at, cut);
  }

  lemma StepAgrees(cfg: Config, lists: Lists, log: seq<int>, e: Event, ip: string, cut: int)
    requires Later(ListOf(lists, ip), cut) == Later(log, cut) && e.at - cfg.window <= cut
    ensures Later(ListOf(Step(cfg, lists, e), ip), cut) == Later(log + Admission(cfg, lists, e, ip), cut)
  {
    CallAgrees(cfg, ListOf(lists, ip), log, e.at, cut);
    assert log + [] == log;
  }

  // Beyond every cut the run has used so far, the pruned list and the full log agree.
  lemma {:induction false} PrunedAgrees(cfg: Config, tr: Trace, ip: string, cut: int)
    requires AllBy(tr, cut + cfg.window)
    ensures Later(ListOf(Run(cfg, tr), ip), cut) == Later(Admitted(cfg, tr, ip), cut)
  {
    if tr.Then? {
      PrunedAgrees(cfg, tr.before, ip, cut);
      StepAgrees(cfg, Run(cfg, tr.before), Admitted(cfg, tr.before, ip), tr.last, ip, cut);
    }
  }

  // ---- the window bound ----

  // Each call's time lags the times already processed by at most `skew`.
  predicate SkewAtMost(tr: Trace, skew: nat) {
    tr.Empty? || (SkewAtMost(tr.before, skew) && (tr.last.Call? ==> AllBy(tr.before, tr.last.at + skew)))
  }

  // How many of the first n times lie in (a, b].
  function CountUpTo(ts: seq<int>, n: nat, a: int, b: int): nat
    requires n <= |ts|
  {
    if n == 0 then 0 else CountUpTo(ts, n - 1, a, b) + (if a < ts[n - 1] <= b then 1 else 0)
  }

  function CountIn(ts: seq<int>, a: int, b: int): nat {
    CountUpTo(ts, |ts|, a, b)
  }

  lemma {:induction false} CountOfLonger(ts: seq<int>, more: seq<int>, n: nat, a: int, b: int)
    requires n <= |ts|
    ensures CountUpTo(ts + more, n, a, b) == CountUpTo(ts, n, a, b)
  {
    if n > 0 { CountOfLonger(ts, more, n - 1, a, b); }
  }

  lemma CountSnoc(ts: seq<int>, t: int, a: int, b: int)
    ensures CountIn(ts + [t], a, b) == CountIn(ts, a, b) + (if a < t <= b then 1 else 0)
  {
    CountOfLonger(ts, [t], |ts|, a, b);
  }

  lemma {:induction false} CountWithinLater(ts: seq<int>, n: nat, a: int, b: int)
    requires n <= |ts|
    ensures CountUpTo(ts, n, a, b) <= |LaterUpTo(ts, n, a)|
  {
    if n > 0 { CountWithinLater(ts, n - 1, a, b); }
  }

  lemma AdmissionFindsRoom(cfg: Config, tr: Trace, ip: string, at: int, skew: nat, a: int)
    requires AllBy(tr, at + skew)
    requires a < at <= a + cfg.window - skew
    requires Allows(cfg, Run(cfg, tr), ip, at)
    ensures CountIn(Admitted(cfg, tr, ip), a, a + cfg.window - skew) < cfg.maxAttempts
  {
    AllByLater(tr, at + skew, a + cfg.window);
    PrunedAgrees(cfg, tr, ip, a);
    RoomLeft(ListOf(Run(cfg, tr), ip), Admitted(cfg, tr, ip), at - cfg.window, a, a + cfg.window - skew);
  }

  lemma {:induction false} AllByLater(tr: Trace, limit: int, limit': int)
    requires AllBy(tr, limit) && limit <= limit'
    ensures AllBy(tr, limit')
  {
    if tr.Then? { AllByLater(tr.before, limit, limit'); }
  }

  lemma RoomLeft(list: seq<int>, log: seq<int>, cut: int, a: int, b: int)
    requires cut <= a && Later(list, a) == Later(log, a)
    ensures CountIn(log, a, b) <= |Later(list, cut)|
  {
    LaterLater(list, cut, a);
    LaterIsShorter(Later(list, cut), |Later(list, cut)|, a);
    CountWithinLater(log, |log|, a, b);
  }

  // In every run, at most maxAttempts admissions of one address fall in (a, a + window - skew];
  // with times in order (skew 0) this is the sliding window itself.
  lemma {:induction false} WindowBound(cfg: Config, tr: Trace, ip: string, skew: nat, a: int)
    requires SkewAtMost(tr, skew)
    ensures CountIn(Admitted(cfg, tr, ip), a, a + cfg.window - skew) <= Max(0, cfg.maxAttempts)
  {
    if tr.Then? {
      var log, e := Admitted(cfg, tr.before, ip), tr.last;
      WindowBound(cfg, tr.before, ip, skew, a);
      if Admission(cfg, Run(cfg, tr.before), e, ip) == [] {
        assert log + [] == log;
      } else {
        CountSnoc(log, e.at, a, a + cfg.window - skew);
        if a < e.at <= a + cfg.window - skew {
          AdmissionFindsRoom(cfg, tr.before, ip, e.at, skew, a);
        }
      }
    }
  }

  // ---- the skewed bound cannot be improved ----

  function Burst(ip: string, n: nat): Trace {
    if n == 0 then Empty else Then(Burst(ip, n - 1), Call(ip, 0))
  }

  function Zeros(n: nat): (zs: seq<int>)
    ensures |zs| == n && forall i | 0 <= i < n :: zs[i] == 0
  {
    if n == 0 then [] else Zeros(n - 1) + [0]
  }

  lemma {:induction false} ZerosLater(zs: seq<int>, n: nat, cut: int)
    requires n <= |zs| && forall i | 0 <= i < n :: zs[i] == 0
    ensures LaterUpTo(zs, n, cut) == if cut < 0 then zs[..n] else []
  {
    if n > 0 { ZerosLater(zs, n - 1, cut); }
  }

  lemma {:induction false} ZerosCount(zs: seq<int>, n: nat, a: int, b: int)
    requires n <= |zs| && forall i | 0 <= i < n :: zs[i] == 0
    requires a < 0 <= b
    ensures CountUpTo(zs, n, a, b) == n
  {
    if n > 0 { ZerosCount(zs, n - 1, a, b); }
  }

  lemma StepInBurst(cfg: Config, lists: Lists, ip: string, n: nat)
    requires n < cfg.maxAttempts && cfg.window >= 1 && ListOf(lists, ip) == Zeros(n)
    ensures ListOf(Step(cfg, lists, Call(ip, 0)), ip) == Zeros(n) + [0]
    ensures Admission(cfg, lists, Call(ip, 0), ip) == [0]
  {
    ZerosLater(Zeros(n), n, -cfg.window);
    assert Zeros(n)[..n] == Zeros(n);
  }

  lemma {:induction false} BurstIsAdmitted(cfg: Config, ip: string, n: nat)
    requires n <= cfg.maxAttempts && cfg.window >= 1
    ensures ListOf(Run(cfg, Burst(ip, n)), ip) == Zeros(n) == Admitted(cfg, Burst(ip, n), ip)
  {
    if n > 0 {
      BurstIsAdmitted(cfg, ip, n - 1);
      StepInBurst(cfg, Run(cfg, Burst(ip, n - 1)), ip, n - 1);
    }
  }

  lemma StepAfterBurst(cfg: Config, lists: Lists, ip: string, at: int)
    requires cfg.maxAttempts >= 1 && ListOf(lists, ip) == Zeros(cfg.maxAttempts)
    ensures Admission(cfg, Step(cfg, lists, Clean(cfg.window)), Call(ip, at), ip) == [at]
  {
    ZerosLater(Zeros(cfg.maxAttempts), cfg.maxAttempts, 0);
    assert ListOf(Step(cfg, lists, Clean(cfg.window)), ip) == [];
  }

  lemma {:induction false} BurstSkew(ip: string, n: nat, skew: nat, limit: int)
    requires limit >= 0
    ensures SkewAtMost(Burst(ip, n), skew) && AllBy(Burst(ip, n), limit)
  {
    if n > 0 {
      BurstSkew(ip, n - 1, skew, limit);
      BurstSkew(ip, n - 1, skew, skew);
    }
  }

  // A burst at 0, a cleanup stamped `window`, and a call that captured its time `skew` earlier.
  function LateCallRun(cfg: Config, ip: string, skew: nat): Trace
    requires cfg.maxAttempts >= 1
  {
    Then(Then(Burst(ip, cfg.maxAttempts), Clean(cfg.window)), Call(ip, cfg.window - skew))
  }

  lemma LateCallAdmitted(cfg: Config, ip: string, skew: nat)
    requires cfg.maxAttempts >= 1 && cfg.window >= 1
    ensures Admitted(cfg, LateCallRun(cfg, ip, skew), ip) == Zeros(cfg.maxAttempts) + [cfg.window - skew]
  {
    var burst := Burst(ip, cfg.maxAttempts);
    BurstIsAdmitted(cfg, ip, cfg.maxAttempts);
    StepAfterBurst(cfg, Run(cfg, burst), ip, cfg.window - skew);
    assert Admitted(cfg, burst, ip) + [] == Admitted(cfg, burst, ip);
  }

  // It has maxAttempts + 1 admissions within (-1, -1 + window - skew + 1].
  lemma SkewBoundIsTight(cfg: Config, ip: string, skew: nat)
    requires cfg.maxAttempts >= 1 && cfg.window >= 1 && skew <= cfg.window
    ensures SkewAtMost(LateCallRun(cfg, ip, skew), skew)
    ensures CountIn(Admitted(cfg, LateCallRun(cfg, ip, skew), ip), -1, -1 + cfg.window - skew + 1) == cfg.maxAttempts + 1
  {
    var cleaned := Then(Burst(ip, cfg.maxAttempts), Clean(cfg.window));
    BurstSkew(ip, cfg.maxAttempts, skew, cfg.window);
    assert SkewAtMost(cleaned, skew) && AllBy(cleaned, cfg.window);
    LateCallAdmitted(cfg, ip, skew);
    CountSnoc(Zeros(cfg.maxAttempts), cfg.window - skew, -1, cfg.window - skew);
    ZerosCount(Zeros(cfg.maxAttempts), cfg.maxAttempts, -1, cfg.window - skew);
  }

  // ---- with times in order the limiter is the plain rule ----

  // The rule over the full log: fewer than maxAttempts admissions later than now - window.
  predicate RuleAllows(cfg: Config, log: seq<int>, at: int) {
    |Later(log, at - cfg.window)| < cfg.maxAttempts
  }

  function RuleAdmitted(cfg: Config, tr: Trace, ip: string): seq<int> {
    match tr
    case Empty => []
    case Then(before, e) =>
      var log := RuleAdmitted(cfg, before, ip);
      log + (if e.Call? && e.ip == ip && RuleAllows(cfg, log, e.at) then [e.at] else [])
  }

  lemma VerdictIsTheRule(cfg: Config, tr: Trace, ip: string, at: int)
    requires AllBy(tr, at)
    ensures Allows(cfg, Run(cfg, tr), ip, at) <==> RuleAllows(cfg, Admitted(cfg, tr, ip), at)
  {
    var cut := at - cfg.window;
    assert cut + cfg.window == at;
    PrunedAgrees(cfg, tr, ip, cut);
    assert StillCounted(cfg, Run(cfg, tr), ip, at) == Later(Admitted(cfg, tr, ip), cut);
  }

  lemma {:induction false} LimiterIsTheRule(cfg: Config, tr: Trace, ip: string)
    requires SkewAtMost(tr, 0)
    ensures Admitted(cfg, tr, ip) == RuleAdmitted(cfg, tr, ip)
  {
    if tr.Then? {
      LimiterIsTheRule(cfg, tr.before, ip);
      if tr.last.Call? {
        VerdictIsTheRule(cfg, tr.before, ip, tr.last.at);
      }
    }
  }

  function WithoutCleans(tr: Trace): Trace {
    match tr
    case Empty => Empty
    case Then(before, e) => if e.Clean? then WithoutCleans(before) else Then(WithoutCleans(before), e)
  }

  lemma {:induction false} RuleIgnoresCleans(cfg: Config, tr: Trace, ip: string)
    ensures RuleAdmitted(cfg, tr, ip) == RuleAdmitted(cfg, WithoutCleans(tr), ip)
  {
    if tr.Then? {
      RuleIgnoresCleans(cfg, tr.before, ip);
      var log := RuleAdmitted(cfg, tr.before, ip);
      assert log + [] == log;
    }
  }

  lemma {:induction false} WithoutCleansInOrder(tr: Trace, limit: int)
    ensures AllBy(tr, limit) ==> AllBy(WithoutCleans(tr), limit)
    ensures SkewAtMost(tr, 0) ==> SkewAtMost(WithoutCleans(tr), 0)
  {
    if tr.Then? {
      WithoutCleansInOrder(tr.before, limit);
      WithoutCleansInOrder(tr.before, tr.last.at);
    }
  }

  // The verdict of every call of the run, in order.
  function Verdicts(cfg: Config, tr: Trace): seq<bool> {
    match tr
    case Empty => []
    case Then(before, Call(ip, at)) => Verdicts(cfg, before) + [Allows(cfg, Run(cfg, before), ip, at)]
    case Then(before, Clean(_)) => Verdicts(cfg, before)
  }

  lemma SameVerdict(cfg: Config, tr: Trace, ip: string, at: int)
    requires SkewAtMost(tr, 0) && AllBy(tr, at)
    ensures Allows(cfg, Run(cfg, tr), ip, at) <==> Allows(cfg, Run(cfg, WithoutCleans(tr)), ip, at)
  {
    WithoutCleansInOrder(tr, at);
    VerdictIsTheRule(cfg, tr, ip, at);
    VerdictIsTheRule(cfg, WithoutCleans(tr), ip, at);
    LimiterIsTheRule(cfg, tr, ip);
    LimiterIsTheRule(cfg, WithoutCleans(tr), ip);
    RuleIgnoresCleans(cfg, tr, ip);
  }

  // Cleanup passes inserted anywhere change no verdict, for any address.
  lemma {:induction false} CleanupIsInvisible(cfg: Config, tr: Trace)
    requires SkewAtMost(tr, 0)
    ensures Verdicts(cfg, tr) == Verdicts(cfg, WithoutCleans(tr))
  {
    if tr.Then? {
      CleanupIsInvisible(cfg, tr.before);
      if tr.last.Call? {
        SameVerdict(cfg, tr.before, tr.last.ip, tr.last.at);
      }
    }
  }
}
