/**
 The two model-fallback loops: chat completion and audio transcription. A model call is an
 oracle that takes some time and ends in a text or an error; its deadline is the per-model
 timeout or what is left of the total, whichever is sooner.
 */
module ModelFallback {
  import opened Wrappers

  datatype Outcome =
    | Text(text: string)
    | ApiError(status: int)
    | OtherError  // transport, parsing, or a deadline that passed

  // What the service behind a model would do if it were given all the time it needs.
  datatype Attempt = Attempt(duration: nat, outcome: Outcome)

  datatype Limits = Limits(perModel: nat, total: nat)

  function Budget(lim: Limits, elapsed: nat): nat
    requires elapsed <= lim.total
  {
    Min(lim.perModel, lim.total - elapsed)
  }

  // What the caller sees.
  function Seen(lim: Limits, a: Attempt, elapsed: nat): Outcome
    requires elapsed <= lim.total
  {
    if a.duration > Budget(lim, elapsed) then OtherError else a.outcome
  }

  function Clock(lim: Limits, a: Attempt, elapsed: nat): (t: nat)
    requires elapsed <= lim.total
    ensures elapsed <= t <= lim.total && t <= elapsed + lim.perModel
  {
    elapsed + Min(a.duration, Budget(lim, elapsed))
  }

  predicate NonRetryable(o: Outcome) {
    o.ApiError? && 400 <= o.status < 500 && o.status != 429
  }

  datatype Reply =
    | Answer(text: string, model: string)
    | Rejected(model: string, error: Outcome)
    | NoModels                  // nothing was tried
    | AllFailed(lastModel: string, last: Outcome)  // the request body handed back is lastModel's

  // ---- what a correct fallback is, without its loop ----

  // The clock when attempt k starts, if all before it were made.
  function StartOf(lim: Limits, calls: seq<Attempt>, k: nat): (t: nat)
    requires k <= |calls|
    ensures t <= lim.total && t <= k * lim.perModel
  {
    if k == 0 then 0 else Clock(lim, calls[k - 1], StartOf(lim, calls, k - 1))
  }

  function SeenAt(lim: Limits, calls: seq<Attempt>, k: nat): Outcome
    requires k < |calls|
  {
    Seen(lim, calls[k], StartOf(lim, calls, k))
  }

  // The first n models were tried, every one of them failed in a way worth another try.
  ghost predicate FailedOver(lim: Limits, calls: seq<Attempt>, n: nat) {
    n <= |calls| &&
    forall j {:trigger SeenAt(lim, calls, j)} | 0 <= j < n ::
      && StartOf(lim, calls, j) < lim.total
      && !SeenAt(lim, calls, j).Text?
      && !NonRetryable(SeenAt(lim, calls, j))
  }

  ghost predicate Correct(lim: Limits, models: seq<string>, calls: seq<Attempt>, tried: nat, elapsed: nat, r: Reply)
    requires |calls| == |models|
  {
    && tried <= |models| && elapsed == StartOf(lim, calls, tried)
    && match r
       case Answer(text, model) =>
         && tried >= 1 && FailedOver(lim, calls, tried - 1) && StartOf(lim, calls, tried - 1) < lim.total
         && model == models[tried - 1] && SeenAt(lim, calls, tried - 1) == Text(text)
       case Rejected(model, error) =>
         && tried >= 1 && FailedOver(lim, calls, tried - 1) && StartOf(lim, calls, tried - 1) < lim.total
         && model == models[tried - 1] && SeenAt(lim, calls, tried - 1) == error && NonRetryable(error)
       case NoModels =>
         tried == 0 && (models == [] || lim.total == 0)
       case AllFailed(model, last) =>
         && tried >= 1 && FailedOver(lim, calls, tried)
         && model == models[tried - 1] && SeenAt(lim, calls, tried - 1) == last
         && (tried == |models| || elapsed >= lim.total)
  }

  // ---- the two loops ----

  method CallChatCompletionWithFallback(lim: Limits, models: seq<string>, calls: seq<Attempt>)
      returns (r: Reply, tried: nat, elapsed: nat)
    requires |calls| == |models|
    ensures Correct(lim, models, calls, tried, elapsed, r)
  {
    var lastErr, lastReqBody := None, "";
    tried, elapsed := 0, 0;
    while tried < |models|
      invariant tried <= |models| && elapsed == StartOf(lim, calls, tried) && FailedOver(lim, calls, tried)
      invariant lastErr == if tried == 0 then None else Some(SeenAt(lim, calls, tried - 1))
      invariant tried > 0 ==> lastReqBody == models[tried - 1]
    {
      if elapsed >= lim.total {
        break;
      }
      var outcome := Seen(lim, calls[tried], elapsed);
      elapsed := Clock(lim, calls[tried], elapsed);
      var model := models[tried];
      tried, lastReqBody := tried + 1, model;
      if outcome.Text? {
        return Answer(outcome.text, model), tried, elapsed;
      }
      lastErr := Some(outcome);
      if NonRetryable(outcome) {
        return Rejected(model, outcome), tried, elapsed;
      }
    }
    r := if lastErr.None? then NoModels else AllFailed(lastReqBody, lastErr.value);
  }

  method CallGPTWithModelFallback(lim: Limits, models: seq<string>, calls: seq<Attempt>)
      returns (r: Reply, tried: nat, elapsed: nat)
    requires |calls| == |models|
    ensures Correct(lim, models, calls, tried, elapsed, r)
  {
    var lastErr: Option<Outcome>, lastReqBody := None, "";
    tried, elapsed := 0, 0;
    for i := 0 to |models|
      invariant tried == i && elapsed == StartOf(lim, calls, i) && FailedOver(lim, calls, i)
      invariant lastErr == if i == 0 then None else Some(SeenAt(lim, calls, i - 1))
      invariant i > 0 ==> lastReqBody == models[i - 1]
    {
      if elapsed >= lim.total {
        break;
      }
      var outcome := Seen(lim, calls[i], elapsed);
      elapsed := Clock(lim, calls[i], elapsed);
      tried, lastReqBody := i + 1, models[i];
      if outcome.Text? {
        return Answer(outcome.text, models[i]), tried, elapsed;
      }
      if NonRetryable(outcome) {
        return Rejected(models[i], outcome), tried, elapsed;
      }
      lastErr := Some(outcome);
    }
    r := if lastErr.None? then NoModels else AllFailed(lastReqBody, lastErr.value);
  }

  // ---- consequences of the specification ----

  lemma {:induction false} StartsGrow(lim: Limits, calls: seq<Attempt>, i: nat, j: nat)
    requires i <= j <= |calls|
    ensures StartOf(lim, calls, i) <= StartOf(lim, calls, j)
    decreases j - i
  {
    if i < j { StartsGrow(lim, calls, i, j - 1); }
  }

  // Every call that was made was started in time, and all but the last failed for now.
  lemma CallMade(lim: Limits, models: seq<string>, calls: seq<Attempt>, tried: nat, elapsed: nat, r: Reply, k: nat)
    requires |calls| == |models| && Correct(lim, models, calls, tried, elapsed, r) && k < tried
    ensures StartOf(lim, calls, k) < lim.total
    ensures k < tried - 1 ==> !SeenAt(lim, calls, k).Text? && !NonRetryable(SeenAt(lim, calls, k))
  {
    var seen := SeenAt(lim, calls, k);
  }

  // A longer run would have started another call after the shorter one had ended.
  lemma NoLongerRun(lim: Limits, models: seq<string>, calls: seq<Attempt>,
                    n1: nat, t1: nat, r1: Reply, n2: nat, t2: nat, r2: Reply)
    requires |calls| == |models|
    requires Correct(lim, models, calls, n1, t1, r1) && Correct(lim, models, calls, n2, t2, r2)
    ensures n2 <= n1
  {
    if n1 < n2 {
      if n1 > 0 { CallMade(lim, models, calls, n2, t2, r2, n1 - 1); }
      CallMade(lim, models, calls, n2, t2, r2, n1);
    }
  }

  // There is exactly one correct outcome, so the two loops agree on every input.
  lemma CorrectIsUnique(lim: Limits, models: seq<string>, calls: seq<Attempt>,
                        n1: nat, t1: nat, r1: Reply, n2: nat, t2: nat, r2: Reply)
    requires |calls| == |models|
    requires Correct(lim, models, calls, n1, t1, r1) && Correct(lim, models, calls, n2, t2, r2)
    ensures n1 == n2 && t1 == t2 && r1 == r2
  {
    NoLongerRun(lim, models, calls, n1, t1, r1, n2, t2, r2);
    NoLongerRun(lim, models, calls, n2, t2, r2, n1, t1, r1);
  }

  // An answer is the first success: no model before it had one.
  lemma FirstSuccess(lim: Limits, models: seq<string>, calls: seq<Attempt>, tried: nat, elapsed: nat, r: Reply)
    requires |calls| == |models| && Correct(lim, models, calls, tried, elapsed, r) && r.Answer?
    ensures forall j | 0 <= j < |models| && SeenAt(lim, calls, j).Text? :: tried - 1 <= j
  {
  }

  // The clock never passes the total; and giving up after retryable failures means that every
  // model was tried, or that they used up the total, which takes at least total / perModel of
  // them, rounded up.
  lemma GivingUpTakesTime(lim: Limits, models: seq<string>, calls: seq<Attempt>, tried: nat, elapsed: nat, r: Reply)
    requires |calls| == |models| && Correct(lim, models, calls, tried, elapsed, r)
    ensures elapsed <= lim.total
    ensures r.AllFailed? && tried < |models| ==> elapsed == lim.total && tried * lim.perModel >= lim.total
    ensures r.AllFailed? && tried < |models| && lim.perModel > 0 ==>
      tried >= (lim.total + lim.perModel - 1) / lim.perModel
  {
    if r.AllFailed? && tried < |models| && lim.perModel > 0 {
      CeilingBelow(lim.total, lim.perModel, tried);
    }
  }

  lemma {:induction false} TimesGrow(a: nat, b: nat, t: nat)
    requires a <= b
    ensures a * t <= b * t
    decreases b - a
  {
    if a < b {
      TimesGrow(a, b - 1, t);
      assert b * t == (b - 1) * t + t;
    }
  }

  lemma CeilingBelow(d: nat, t: nat, n: nat)
    requires t > 0 && n * t >= d
    ensures n >= (d + t - 1) / t
  {
    var q := (d + t - 1) / t;
    assert q * t <= d + t - 1 < n * t + t == (n + 1) * t;
    if q >= n + 1 {
      TimesGrow(n + 1, q, t);
    }
  }

  // A reply that ends the loop early does not depend on the models after it.
  lemma LaterModelsAreIrrelevant(lim: Limits, models: seq<string>, calls: seq<Attempt>,
                                 more: seq<string>, moreCalls: seq<Attempt>, tried: nat, elapsed: nat, r: Reply)
    requires |calls| == |models| && |moreCalls| == |more|
    requires Correct(lim, models, calls, tried, elapsed, r) && (r.Answer? || r.Rejected?)
    ensures Correct(lim, models + more, calls + moreCalls, tried, elapsed, r)
  {
    SameSeen(lim, calls, moreCalls, tried - 1);
    SameStarts(lim, calls, moreCalls, tried);
    forall j | 0 <= j < tried - 1
      ensures StartOf(lim, calls + moreCalls, j) < lim.total
      ensures !SeenAt(lim, calls + moreCalls, j).Text? && !NonRetryable(SeenAt(lim, calls + moreCalls, j))
    {
      CallMade(lim, models, calls, tried, elapsed, r, j);
      SameSeen(lim, calls, moreCalls, j);
    }
  }

  lemma SameSeen(lim: Limits, calls: seq<Attempt>, more: seq<Attempt>, k: nat)
    requires k < |calls|
    ensures StartOf(lim, calls + more, k) == StartOf(lim, calls, k) && SeenAt(lim, calls + more, k) == SeenAt(lim, calls, k)
  {
    SameStarts(lim, calls, more, k);
  }

  lemma {:induction false} SameStarts(lim: Limits, calls: seq<Attempt>, more: seq<Attempt>, k: nat)
    requires k <= |calls|
    ensures StartOf(lim, calls + more, k) == StartOf(lim, calls, k)
  {
    if k > 0 { SameStarts(lim, calls, more, k - 1); }
  }

  // ---- what happens, from the models' own behaviour ----

  // Worth another try: a transport or parsing failure, a 429, or any status that is no 4xx.
  predicate Retryable(o: Outcome) {
    match o
    case Text(_) => false
    case ApiError(status) => status == 429 || status < 400 || status >= 500
    case OtherError => true
  }

  // Only a 4xx other than 429 stops the loop, and only the others let it give up.
  lemma OnlyClientErrorsAreFinal(lim: Limits, models: seq<string>, calls: seq<Attempt>, tried: nat, elapsed: nat, r: Reply)
    requires |calls| == |models| && Correct(lim, models, calls, tried, elapsed, r)
    ensures r.Rejected? ==> r.error.ApiError? && 400 <= r.error.status <= 499 && r.error.status != 429
    ensures r.AllFailed? ==> Retryable(r.last) && forall j | 0 <= j < tried :: Retryable(SeenAt(lim, calls, j))
  {
  }

  // The time the first n calls take when each is cut off at the limit for one.
  function Spent(lim: Limits, calls: seq<Attempt>, n: nat): nat
    requires n <= |calls|
  {
    if n == 0 then 0 else Spent(lim, calls, n - 1) + Min(calls[n - 1].duration, lim.perModel)
  }

  // A model that is too slow, or answers in time with a failure worth another try.
  predicate Fails(lim: Limits, a: Attempt) {
    a.duration > lim.perModel || Retryable(a.outcome)
  }

  // The first n models fail, and the total leaves them all the time they need.
  ghost predicate FailInTime(lim: Limits, calls: seq<Attempt>, n: nat) {
    && n <= |calls| && Spent(lim, calls, n) <= lim.total
    && forall j {:trigger Fails(lim, calls[j])} | 0 <= j < n :: Fails(lim, calls[j]) && Spent(lim, calls, j) < lim.total
  }

  // What is seen of a call that the total leaves all the time its own limit gives it.
  function SeenInTime(lim: Limits, a: Attempt): Outcome {
    if a.duration > lim.perModel then OtherError else a.outcome
  }

  lemma CallInTime(lim: Limits, a: Attempt, elapsed: nat)
    requires elapsed + Min(a.duration, lim.perModel) <= lim.total
    ensures Clock(lim, a, elapsed) == elapsed + Min(a.duration, lim.perModel)
    ensures Seen(lim, a, elapsed) == SeenInTime(lim, a)
  {
  }

  lemma {:induction false} FailInTimeStarts(lim: Limits, calls: seq<Attempt>, n: nat)
    requires FailInTime(lim, calls, n)
    ensures StartOf(lim, calls, n) == Spent(lim, calls, n)
  {
    if n > 0 {
      FailInTimePrefix(lim, calls, n - 1, n);
      FailInTimeStarts(lim, calls, n - 1);
      CallInTime(lim, calls[n - 1], Spent(lim, calls, n - 1));
    }
  }

  lemma {:induction false} SpentGrows(lim: Limits, calls: seq<Attempt>, i: nat, j: nat)
    requires i <= j <= |calls|
    ensures Spent(lim, calls, i) <= Spent(lim, calls, j)
    decreases j
  {
    if i < j { SpentGrows(lim, calls, i, j - 1); }
  }

  lemma FailInTimePrefix(lim: Limits, calls: seq<Attempt>, j: nat, n: nat)
    requires FailInTime(lim, calls, n) && j <= n
    ensures FailInTime(lim, calls, j)
  {
    SpentGrows(lim, calls, j, n);
  }

  lemma FailInTimeIsSeen(lim: Limits, calls: seq<Attempt>, n: nat, j: nat)
    requires FailInTime(lim, calls, n) && j < n
    ensures StartOf(lim, calls, j) == Spent(lim, calls, j) < lim.total
    ensures SeenAt(lim, calls, j) == SeenInTime(lim, calls[j]) && Retryable(SeenAt(lim, calls, j))
  {
    FailInTimePrefix(lim, calls, j, n);
    FailInTimeStarts(lim, calls, j);
    assert Fails(lim, calls[j]);
    SpentGrows(lim, calls, j + 1, n);
    CallInTime(lim, calls[j], Spent(lim, calls, j));
  }

  lemma FailInTimeIsFailedOver(lim: Limits, calls: seq<Attempt>, n: nat)
    requires FailInTime(lim, calls, n)
    ensures FailedOver(lim, calls, n) && StartOf(lim, calls, n) == Spent(lim, calls, n)
  {
    FailInTimeStarts(lim, calls, n);
    forall j | 0 <= j < n
      ensures StartOf(lim, calls, j) < lim.total
      ensures !SeenAt(lim, calls, j).Text? && !NonRetryable(SeenAt(lim, calls, j))
    {
      FailInTimeIsSeen(lim, calls, n, j);
    }
  }

  // The models before n fail, model n starts, and its text arrives within its limit and the
  // total: that text is the answer, after the time it took. Likewise a final error.
  lemma FirstDecisionStands(lim: Limits, models: seq<string>, calls: seq<Attempt>, n: nat, tried: nat, elapsed: nat, r: Reply)
    requires |calls| == |models| && Correct(lim, models, calls, tried, elapsed, r)
    requires n < |calls| && FailInTime(lim, calls, n) && Spent(lim, calls, n) < lim.total
    requires calls[n].duration <= lim.perModel && Spent(lim, calls, n) + calls[n].duration <= lim.total
    requires !Retryable(calls[n].outcome)
    ensures tried == n + 1 && elapsed == Spent(lim, calls, n) + calls[n].duration
    ensures r == match calls[n].outcome
                 case Text(text) => Answer(text, models[n])
                 case _ => Rejected(models[n], calls[n].outcome)
  {
    FailInTimeIsFailedOver(lim, calls, n);
    CallInTime(lim, calls[n], Spent(lim, calls, n));
    var outcome := calls[n].outcome;
    var reply := if outcome.Text? then Answer(outcome.text, models[n]) else Rejected(models[n], outcome);
    var end := Spent(lim, calls, n) + calls[n].duration;
    assert Correct(lim, models, calls, n + 1, end, reply);
    CorrectIsUnique(lim, models, calls, n + 1, end, reply, tried, elapsed, r);
  }

  // The models before n fail and the total runs out during call n: nothing more is tried.
  lemma TotalCutsOff(lim: Limits, models: seq<string>, calls: seq<Attempt>, n: nat, tried: nat, elapsed: nat, r: Reply)
    requires |calls| == |models| && Correct(lim, models, calls, tried, elapsed, r)
    requires n < |calls| && FailInTime(lim, calls, n) && Spent(lim, calls, n) < lim.total < Spent(lim, calls, n + 1)
    ensures tried == n + 1 && elapsed == lim.total && r == AllFailed(models[n], OtherError)
  {
    FailInTimeIsFailedOver(lim, calls, n);
    CallCutOff(lim, calls[n], Spent(lim, calls, n));
    FailedOneMore(lim, calls, n);
    assert Correct(lim, models, calls, n + 1, lim.total, AllFailed(models[n], OtherError));
    CorrectIsUnique(lim, models, calls, n + 1, lim.total, AllFailed(models[n], OtherError), tried, elapsed, r);
  }

  lemma CallCutOff(lim: Limits, a: Attempt, elapsed: nat)
    requires elapsed < lim.total < elapsed + Min(a.duration, lim.perModel)
    ensures Clock(lim, a, elapsed) == lim.total && Seen(lim, a, elapsed) == OtherError
  {
  }

  lemma FailedOneMore(lim: Limits, calls: seq<Attempt>, n: nat)
    requires n < |calls| && FailedOver(lim, calls, n) && StartOf(lim, calls, n) < lim.total
    requires Retryable(SeenAt(lim, calls, n))
    ensures FailedOver(lim, calls, n + 1)
  {
  }

  // n models fail, and there is no other or no time: the last failure is reported, after the
  // sum of their times. With the two lemmas before, this says what comes of every input.
  lemma NothingIsLeft(lim: Limits, models: seq<string>, calls: seq<Attempt>, n: nat, tried: nat, elapsed: nat, r: Reply)
    requires |calls| == |models| && Correct(lim, models, calls, tried, elapsed, r)
    requires n >= 1 && FailInTime(lim, calls, n) && (n == |models| || Spent(lim, calls, n) == lim.total)
    ensures tried == n && elapsed == Spent(lim, calls, n)
    ensures r == AllFailed(models[n - 1], SeenInTime(lim, calls[n - 1]))
  {
    var reply := AllFailed(models[n - 1], SeenInTime(lim, calls[n - 1]));
    FailInTimeIsFailedOver(lim, calls, n);
    FailInTimeIsSeen(lim, calls, n, n - 1);
    assert Correct(lim, models, calls, n, Spent(lim, calls, n), reply);
    CorrectIsUnique(lim, models, calls, n, Spent(lim, calls, n), reply, tried, elapsed, r);
  }
}
