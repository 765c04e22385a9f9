/**
 The ASR log queue as a step system: any number of Enqueue calls, one worker, one Close.
 Channel order and the choice made by `select` follow the Go Language Specification,
 sections "Channel types" and "Select statements": a buffered channel is a FIFO, a ready
 case is picked arbitrarily, and `default` runs only when no case is ready.
 */
module LogQueue {
  import opened Wrappers

  datatype Entry = Entry(requestID: string, podID: string)

  // An entry in the channel, with the Enqueue call that sent it.
  datatype Item = Item(call: nat, entry: Entry)

  // Writing remembers the loop the worker returns to.
  datatype Worker =
    | Running
    | Draining
    | Writing(item: Item, drain: bool)
    | Exited

  // What held when the context was cancelled: how many entries had been accepted, and which
  // calls had passed the context check and not finished.
  datatype Closing = Closing(accepted: nat, racers: set<nat>)

  datatype State = State(
    podID: string,
    capacity: nat,
    passed: map<nat, Entry>,   // calls past the check on the context
    finished: set<nat>,
    buffer: seq<Item>,
    closing: Option<Closing>,
    worker: Worker,
    accepted: seq<Item>,       // everything ever sent, in order
    written: seq<Item>)        // everything the worker is done with, in order

  datatype Event =
    | Check(call: nat, entry: Entry)
    | Send(call: nat)
    | SeeDone(call: nat)
    | Drop(call: nat)
    | Cancel
    | Receive
    | Finish
    | StartDrain
    | Exit

  function Start(podID: string, capacity: nat): State {
    State(podID, capacity, map[], {}, [], None, Running, [], [])
  }

  predicate Enabled(s: State, e: Event) {
    match e
    case Check(c, entry) => c !in s.passed && c !in s.finished
    case Send(c) => c in s.passed && |s.buffer| < s.capacity
    case SeeDone(c) => c in s.passed && s.closing.Some?
    case Drop(c) => c in s.passed && s.closing.None? && |s.buffer| >= s.capacity
    case Cancel => s.closing.None?
    case Receive => (s.worker.Running? || s.worker.Draining?) && s.buffer != []
    case Finish => s.worker.Writing?
    case StartDrain => s.worker.Running? && s.closing.Some?
    case Exit => s.worker.Draining? && s.buffer == []
  }

  function Retire(s: State, c: nat): State {
    s.(passed := s.passed - {c}, finished := s.finished + {c})
  }

  function Apply(s: State, e: Event): State
    requires Enabled(s, e)
  {
    match e
    case Check(c, entry) =>
      if s.closing.Some? then s.(finished := s.finished + {c})
      else s.(passed := s.passed[c := entry.(podID := s.podID)])
    case Send(c) =>
      var item := Item(c, s.passed[c]);
      Retire(s, c).(buffer := s.buffer + [item], accepted := s.accepted + [item])
    case SeeDone(c) => Retire(s, c)
    case Drop(c) => Retire(s, c)
    case Cancel => s.(closing := Some(Closing(|s.accepted|, s.passed.Keys)))
    case Receive => s.(buffer := s.buffer[1..], worker := Writing(s.buffer[0], s.worker.Draining?))
    case Finish =>
      s.(written := s.written + [s.worker.item], worker := if s.worker.drain then Draining else Running)
    case StartDrain => s.(worker := Draining)
    case Exit => s.(worker := Exited)
  }

  ghost predicate Legal(s: State, es: seq<Event>)
    decreases |es|
  {
    es == [] || (Enabled(s, es[0]) && Legal(Apply(s, es[0]), es[1..]))
  }

  ghost function Exec(s: State, es: seq<Event>): State
    requires Legal(s, es)
    decreases |es|
  {
    if es == [] then s else Exec(Apply(s, es[0]), es[1..])
  }

  function Held(s: State): seq<Item> {
    if s.worker.Writing? then [s.worker.item] else []
  }

  ghost predicate OneItemPerCall(items: seq<Item>) {
    forall i, j | 0 <= i < j < |items| :: items[i].call != items[j].call
  }

  ghost predicate Inv(s: State) {
    && |s.buffer| <= s.capacity
    && s.accepted == s.written + Held(s) + s.buffer
    && s.passed.Keys !! s.finished
    && OneItemPerCall(s.accepted)
    && (forall i | 0 <= i < |s.accepted| :: s.accepted[i].call in s.finished && s.accepted[i].entry.podID == s.podID)
    && (forall c | c in s.passed :: s.passed[c].podID == s.podID)
    && (s.worker.Draining? || s.worker.Exited? || (s.worker.Writing? && s.worker.drain) ==> s.closing.Some?)
    && (s.closing.Some? ==>
          && s.closing.value.accepted <= |s.accepted|
          && s.passed.Keys <= s.closing.value.racers
          && (forall i | s.closing.value.accepted <= i < |s.accepted| :: s.accepted[i].call in s.closing.value.racers)
          && (s.worker.Exited? ==> s.closing.value.accepted <= |s.written|))
  }

  lemma StepKeepsInv(s: State, e: Event)
    requires Inv(s) && Enabled(s, e)
    ensures Inv(Apply(s, e))
  {
    var t := Apply(s, e);
    match e
    case Send(c) =>
      assert t.accepted == t.written + Held(t) + t.buffer;
    case Receive =>
      assert s.buffer == [s.buffer[0]] + s.buffer[1..];
      assert t.accepted == t.written + Held(t) + t.buffer;
    case Finish =>
      assert t.accepted == t.written + Held(t) + t.buffer;
    case _ =>
  }

  lemma {:induction false} RunKeepsInv(s: State, es: seq<Event>)
    requires Inv(s) && Legal(s, es)
    ensures Inv(Exec(s, es))
    decreases |es|
  {
    if es != [] {
      StepKeepsInv(s, es[0]);
      RunKeepsInv(Apply(s, es[0]), es[1..]);
    }
  }

  lemma {:induction false} RunKeepsPod(s: State, es: seq<Event>)
    requires Legal(s, es)
    ensures Exec(s, es).podID == s.podID && Exec(s, es).capacity == s.capacity
    decreases |es|
  {
    if es != [] {
      RunKeepsPod(Apply(s, es[0]), es[1..]);
    }
  }

  // ---- what is accepted ----

  // The calls that have passed the check or are done.
  function Calls(s: State): nat {
    |s.finished| + |s.passed|
  }

  lemma RetireKeepsCalls(s: State, c: nat)
    requires Inv(s) && c in s.passed
    ensures Calls(Retire(s, c)) == Calls(s) && |Retire(s, c).finished| == |s.finished| + 1
  {
    RetireOne(s, c);
    assert c !in s.finished;
  }

  lemma RetireOne(s: State, c: nat)
    requires c in s.passed
    ensures |Retire(s, c).passed| == |s.passed| - 1
  {
    assert (s.passed - {c}).Keys == s.passed.Keys - {c};
    assert |s.passed| == |s.passed.Keys| && |s.passed - {c}| == |(s.passed - {c}).Keys|;
  }

  lemma CheckAddsCall(s: State, c: nat, entry: Entry)
    requires Inv(s) && Enabled(s, Check(c, entry)) && s.closing.None?
    ensures Calls(Apply(s, Check(c, entry))) == Calls(s) + 1
  {
    var t := Apply(s, Check(c, entry));
    assert t.passed.Keys == s.passed.Keys + {c};
    assert |t.passed| == |t.passed.Keys| && |s.passed| == |s.passed.Keys|;
  }

  // Before the cancel a call ends by sending its entry unless the channel is full, and the
  // channel holds no more than has been accepted.
  lemma OpenStep(s: State, e: Event)
    requires Inv(s) && Enabled(s, e) && Apply(s, e).closing.None? && Calls(Apply(s, e)) <= s.capacity
    ensures Calls(s) <= Calls(Apply(s, e))
    ensures |s.accepted| == |s.finished| ==> |Apply(s, e).accepted| == |Apply(s, e).finished|
  {
    match e
    case Check(c, entry) => CheckAddsCall(s, c, entry);
    case Send(c) => RetireKeepsCalls(s, c);
    case SeeDone(c) => RetireKeepsCalls(s, c);
    case Drop(c) => RetireKeepsCalls(s, c);
    case _ =>
  }

  lemma {:induction false} OpenRun(s: State, es: seq<Event>)
    requires Inv(s) && Legal(s, es) && Exec(s, es).closing.None? && Calls(Exec(s, es)) <= s.capacity
    ensures s.closing.None? && Calls(s) <= Calls(Exec(s, es))
    ensures |s.accepted| == |s.finished| ==> |Exec(s, es).accepted| == |Exec(s, es).finished|
    decreases |es|
  {
    if es != [] {
      StepKeepsInv(s, es[0]);
      OpenRun(Apply(s, es[0]), es[1..]);
      OpenStep(s, es[0]);
    }
  }

  // Until the cancel, and as long as no more calls have been made than the channel has room
  // for, none is dropped, however slow the worker: every call that is done was accepted.
  lemma NothingIsDroppedEarly(podID: string, capacity: nat, es: seq<Event>)
    requires Legal(Start(podID, capacity), es)
    requires Exec(Start(podID, capacity), es).closing.None? && Calls(Exec(Start(podID, capacity), es)) <= capacity
    ensures var s := Exec(Start(podID, capacity), es); |s.accepted| == |s.finished|
  {
    OpenRun(Start(podID, capacity), es);
  }

  // ---- what Close guarantees ----

  lemma DistinctCallsFit(items: seq<Item>, calls: set<nat>)
    requires OneItemPerCall(items) && forall i | 0 <= i < |items| :: items[i].call in calls
    ensures |items| <= |calls|
    decreases |items|
  {
    if items != [] {
      var last := items[|items| - 1].call;
      DistinctCallsFit(items[..|items| - 1], calls - {last});
    }
  }

  lemma CallsFitBeside(items: seq<Item>, taken: set<nat>, calls: set<nat>)
    requires OneItemPerCall(items) && taken <= calls
    requires forall i | 0 <= i < |items| :: items[i].call in calls && items[i].call !in taken
    ensures |items| + |taken| <= |calls|
  {
    DistinctCallsFit(items, calls - taken);
    assert |calls - taken| == |calls| - |taken|;
  }

  lemma SplitItems(a: seq<Item>, b: seq<Item>)
    requires OneItemPerCall(a + b)
    ensures OneItemPerCall(a) && OneItemPerCall(b)
  {
    forall i, j | 0 <= i < j < |a| ensures a[i].call != a[j].call {
      assert a[i] == (a + b)[i] && a[j] == (a + b)[j];
    }
    forall i, j | 0 <= i < j < |b| ensures b[i].call != b[j].call {
      assert b[i] == (a + b)[|a| + i] && b[j] == (a + b)[|a| + j];
    }
  }

  // When the worker has exited: it has written a prefix of what was accepted, each entry
  // once and in order of acceptance, holding at least everything accepted before the cancel.
  // What is left behind came from calls that had passed the check before the cancel, one
  // entry a call.
  ghost predicate CleanExit(s: State) {
    && s.closing.Some?
    && s.accepted == s.written + s.buffer
    && OneItemPerCall(s.written)
    && (forall i | 0 <= i < |s.written| :: s.written[i].entry.podID == s.podID)
    && s.closing.value.accepted <= |s.written|
    && (forall i | 0 <= i < |s.buffer| :: s.buffer[i].call in s.closing.value.racers)
    && |s.buffer| + |s.passed| <= |s.closing.value.racers|
  }

  lemma ExitIsClean(s: State)
    requires Inv(s) && s.worker.Exited?
    ensures CleanExit(s)
  {
    assert s.accepted == s.written + s.buffer;
    SplitItems(s.written, s.buffer);
    forall i | 0 <= i < |s.written| ensures s.written[i].entry.podID == s.podID {
      assert s.written[i] == s.accepted[i];
    }
    forall i | 0 <= i < |s.buffer|
      ensures s.buffer[i].call in s.closing.value.racers && s.buffer[i].call !in s.passed.Keys
    {
      assert s.buffer[i] == s.accepted[|s.written| + i];
    }
    assert |s.passed| == |s.passed.Keys|;
    CallsFitBeside(s.buffer, s.passed.Keys, s.closing.value.racers);
  }

  lemma CloseGuarantee(podID: string, capacity: nat, es: seq<Event>)
    requires Legal(Start(podID, capacity), es) && Exec(Start(podID, capacity), es).worker.Exited?
    ensures var s := Exec(Start(podID, capacity), es); CleanExit(s) && s.podID == podID
  {
    RunKeepsInv(Start(podID, capacity), es);
    RunKeepsPod(Start(podID, capacity), es);
    ExitIsClean(Exec(Start(podID, capacity), es));
  }

  // ---- the drain ends ----

  function WorkerRank(w: Worker): nat {
    match w
    case Running => 2
    case Draining => 1
    case Writing(item, drain) => if drain then 2 else 3
    case Exited => 0
  }

  function Rank(s: State): nat {
    3 * |s.passed| + 2 * |s.buffer| + WorkerRank(s.worker)
  }

  // The steps that are not a late Enqueue turned away at the check.
  function Effective(es: seq<Event>): nat {
    if es == [] then 0 else (if es[0].Check? then 0 else 1) + Effective(es[1..])
  }

  lemma StepLowersRank(s: State, e: Event)
    requires s.closing.Some? && Enabled(s, e)
    ensures Apply(s, e).closing == s.closing
    ensures if e.Check? then Rank(Apply(s, e)) == Rank(s) else Rank(Apply(s, e)) < Rank(s)
  {
    if e.Send? || e.SeeDone? {
      assert (s.passed - {e.call}).Keys == s.passed.Keys - {e.call};
      assert |s.passed| == |s.passed.Keys| && |s.passed - {e.call}| == |(s.passed - {e.call}).Keys|;
    }
  }

  // A step the worker can take after the cancel.
  function WorkerStep(s: State): Event {
    if s.worker.Running? then StartDrain
    else if s.worker.Writing? then Finish
    else if s.buffer != [] then Receive else Exit
  }

  // After the cancel, whatever the producers do, a run takes at most Rank more steps, and as
  // long as the worker has not exited it has a step to take.
  lemma {:induction false} DrainTerminates(s: State, es: seq<Event>)
    requires s.closing.Some? && Legal(s, es)
    ensures Exec(s, es).closing == s.closing
    ensures Effective(es) + Rank(Exec(s, es)) <= Rank(s)
    ensures Exec(s, es).worker.Exited? || Enabled(Exec(s, es), WorkerStep(Exec(s, es)))
    decreases |es|
  {
    if es != [] {
      StepLowersRank(s, es[0]);
      DrainTerminates(Apply(s, es[0]), es[1..]);
    }
  }

  // Steps of the worker alone that bring it from a cancelled state to its exit.
  ghost function DrainSchedule(s: State): seq<Event>
    requires s.closing.Some?
    decreases Rank(s)
  {
    if s.worker.Exited? then []
    else
      var e := WorkerStep(s);
      StepLowersRank(s, e);
      [e] + DrainSchedule(Apply(s, e))
  }

  lemma {:induction false} CloseReturns(s: State)
    requires s.closing.Some?
    ensures Legal(s, DrainSchedule(s))
    ensures var t := Exec(s, DrainSchedule(s));
            && t.worker.Exited? && t.passed == s.passed && t.capacity == s.capacity
            && (!s.worker.Exited? ==> t.buffer == [])
    decreases Rank(s)
  {
    if !s.worker.Exited? {
      var e := WorkerStep(s);
      StepLowersRank(s, e);
      assert DrainSchedule(s)[1..] == DrainSchedule(Apply(s, e));
      CloseReturns(Apply(s, e));
    }
  }

  // ---- what is lost ----

  // Everything accepted has been written.
  predicate Lossless(s: State) {
    s.accepted == s.written
  }

  // The most a Close begun in s can leave in the channel: one entry for each call that is past
  // its check, as far as the channel has room.
  function MostLost(s: State): nat {
    Min(s.capacity, |s.passed|)
  }

  // A run from the cancel to the exit of the worker, and whatever comes after.
  ghost predicate ClosingRun(s: State, es: seq<Event>)
    requires s.closing.None?
  {
    Legal(Apply(s, Cancel), es) && Exec(Apply(s, Cancel), es).worker.Exited?
  }

  lemma LossIsBounded(s: State, es: seq<Event>)
    requires Inv(s) && s.closing.None? && ClosingRun(s, es)
    ensures var t := Exec(Apply(s, Cancel), es);
            t.accepted == t.written + t.buffer && |t.buffer| <= MostLost(s)
  {
    var s' := Apply(s, Cancel);
    StepKeepsInv(s, Cancel);
    RunKeepsInv(s', es);
    RunKeepsPod(s', es);
    DrainTerminates(s', es);
    ExitIsClean(Exec(s', es));
    assert |s.passed| == |s.passed.Keys|;
  }

  // n of the calls past their check send.
  ghost function LateSends(s: State, n: nat): seq<Event>
    requires n <= |s.passed| && |s.buffer| + n <= s.capacity
    decreases n
  {
    if n == 0 then []
    else
      var c :| c in s.passed;
      RetireOne(s, c);
      [Send(c)] + LateSends(Apply(s, Send(c)), n - 1)
  }

  lemma {:induction false} LateSendsStay(s: State, n: nat)
    requires n <= |s.passed| && |s.buffer| + n <= s.capacity
    ensures Legal(s, LateSends(s, n))
    ensures var t := Exec(s, LateSends(s, n)); t.worker == s.worker && |t.buffer| == |s.buffer| + n
    decreases n
  {
    if n > 0 {
      var es := LateSends(s, n);
      var c := es[0].call;
      RetireOne(s, c);
      assert es[1..] == LateSends(Apply(s, Send(c)), n - 1);
      LateSendsStay(Apply(s, Send(c)), n - 1);
    }
  }

  lemma {:induction false} ExecConcat(s: State, a: seq<Event>, b: seq<Event>)
    requires Legal(s, a) && Legal(Exec(s, a), b)
    ensures Legal(s, a + b) && Exec(s, a + b) == Exec(Exec(s, a), b)
    decreases |a|
  {
    if a == [] {
      assert a + b == b;
    } else {
      ExecConcat(Apply(s, a[0]), a[1..], b);
      assert (a + b)[1..] == a[1..] + b;
    }
  }

  // The worker drains and exits, and only then the calls past their check send.
  lemma WorstRun(s: State) returns (es: seq<Event>)
    requires Inv(s) && s.closing.None?
    ensures ClosingRun(s, es) && |Exec(Apply(s, Cancel), es).buffer| == MostLost(s)
  {
    var s' := Apply(s, Cancel);
    var drain := DrainSchedule(s');
    CloseReturns(s');
    var late := LateSends(Exec(s', drain), MostLost(s));
    LateSendsStay(Exec(s', drain), MostLost(s));
    ExecConcat(s', drain, late);
    es := drain + late;
  }

  // The loss of a Close is at most MostLost in every run, and in some run exactly that.
  lemma WorstLoss(s: State)
    requires Inv(s) && s.closing.None?
    ensures forall es | ClosingRun(s, es) :: |Exec(Apply(s, Cancel), es).accepted| - |Exec(Apply(s, Cancel), es).written| <= MostLost(s)
    ensures exists es :: ClosingRun(s, es) && |Exec(Apply(s, Cancel), es).accepted| - |Exec(Apply(s, Cancel), es).written| == MostLost(s)
  {
    forall es | ClosingRun(s, es)
      ensures |Exec(Apply(s, Cancel), es).accepted| - |Exec(Apply(s, Cancel), es).written| <= MostLost(s)
    {
      LossIsBounded(s, es);
    }
    var es := WorstRun(s);
    LossIsBounded(s, es);
  }

  // "Every accepted entry is written" holds of every run of a Close exactly when no call is
  // between its check and its send as the Close begins.
  lemma LosslessClose(s: State)
    requires Inv(s) && s.closing.None? && s.capacity >= 1
    ensures (forall es | ClosingRun(s, es) :: Lossless(Exec(Apply(s, Cancel), es))) <==> s.passed == map[]
  {
    WorstLoss(s);
    if s.passed == map[] {
      forall es | ClosingRun(s, es) ensures Lossless(Exec(Apply(s, Cancel), es)) {
        LossIsBounded(s, es);
      }
    } else {
      assert MostLost(s) >= 1;
    }
  }

  // The race that loses one: a call passes the check, Close runs to its end, the call sends.
  lemma LateEntryIsLost(podID: string, capacity: nat, entry: Entry)
    requires capacity >= 1
    ensures var es := [Check(0, entry), Cancel, StartDrain, Exit, Send(0)];
            && Legal(Start(podID, capacity), es)
            && Exec(Start(podID, capacity), es).accepted == [Item(0, entry.(podID := podID))]
            && Exec(Start(podID, capacity), es).written == []
  {
    var s1 := Apply(Start(podID, capacity), Check(0, entry));
    var s4 := Apply(Apply(Apply(s1, Cancel), StartDrain), Exit);
    assert Legal(s4, [Send(0)]) && Exec(s4, [Send(0)]) == Apply(s4, Send(0));
    assert Exec(Apply(s1, Cancel), [StartDrain, Exit, Send(0)]) == Apply(s4, Send(0));
  }
}
