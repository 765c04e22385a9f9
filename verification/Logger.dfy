/**
 Logger as code: Enqueue, the two receive loops of the worker, and Close, run without
 interference. Each is shown to be a legal run of the step system in LogQueue, so the
 loops take only steps the system allows.
 */
module Logger {
  import opened LogQueue

  lemma {:induction false} ExecSnoc(s: State, es: seq<Event>, e: Event)
    requires Legal(s, es) && Enabled(Exec(s, es), e)
    ensures Legal(s, es + [e]) && Exec(s, es + [e]) == Apply(Exec(s, es), e)
    decreases |es|
  {
    if es == [] {
      assert Exec(Apply(s, e), []) == Apply(s, e);
      assert ([] + [e])[1..] == [];
    } else {
      ExecSnoc(Apply(s, es[0]), es[1..], e);
      assert (es + [e])[1..] == es[1..] + [e];
    }
  }

  class Logger {
    const podID: string
    const bufSize: nat
    var ch: seq<Item>
    var cancelled: bool
    var written: seq<Item>  // what writeEntry has been called with
    ghost var model: State

    ghost predicate Valid()
      reads this
    {
      && Inv(model)
      && model.podID == podID && model.capacity == bufSize
      && model.buffer == ch && model.written == written && (model.closing.Some? <==> cancelled)
    }

    constructor (bufSize: nat, podID: string)
      ensures Valid() && model == Start(podID, bufSize)
    {
      this.bufSize, this.podID := bufSize, podID;
      ch, cancelled, written := [], false, [];
      model := Start(podID, bufSize);
    }

    // `call` names this call of Enqueue.
    method Enqueue(call: nat, entry: Entry) returns (ghost es: seq<Event>)
      requires Valid() && call !in model.passed && call !in model.finished
      modifies this
      ensures Valid() && Legal(old(model), es) && model == Exec(old(model), es)
      ensures cancelled == old(cancelled) && written == old(written)
      ensures ch == if cancelled || |old(ch)| >= bufSize then old(ch)
                    else old(ch) + [Item(call, entry.(podID := podID))]
    {
      es := [Check(call, entry)];
      ghost var s1 := Apply(model, Check(call, entry));
      StepKeepsInv(model, Check(call, entry));
      ExecSnoc(model, [], Check(call, entry));
      model := s1;
      if cancelled {
        return;
      }
      var stamped := entry.(podID := podID);
      ghost var e;
      if |ch| < bufSize {
        ch := ch + [Item(call, stamped)];
        e := Send(call);
      } else {
        e := Drop(call);
      }
      StepKeepsInv(model, e);
      ExecSnoc(old(model), es, e);
      es := es + [e];
      model := Apply(model, e);
    }

    // One receive and the write that follows it.
    method WriteNext(ghost from: State, ghost es: seq<Event>) returns (ghost es': seq<Event>)
      requires Valid() && ch != [] && (model.worker.Running? || model.worker.Draining?)
      requires Legal(from, es) && model == Exec(from, es)
      modifies this
      ensures Valid() && Legal(from, es') && model == Exec(from, es')
      ensures ch == old(ch)[1..] && written == old(written) + [old(ch)[0]]
      ensures cancelled == old(cancelled) && model.worker == old(model).worker && model.accepted == old(model).accepted
      ensures model.closing == old(model).closing && model.passed == old(model).passed
    {
      StepKeepsInv(model, Receive);
      ExecSnoc(from, es, Receive);
      StepKeepsInv(Apply(model, Receive), Finish);
      ExecSnoc(from, es + [Receive], Finish);
      written := written + [ch[0]];
      ch := ch[1..];
      es' := es + [Receive] + [Finish];
      model := Apply(Apply(model, Receive), Finish);
    }

    // The main loop of the worker once the context is cancelled: while both cases of the
    // select are ready either may be taken, so any number of entries may still be received.
    method MainLoop(ghost from: State, ghost es: seq<Event>) returns (ghost es': seq<Event>)
      requires Valid() && cancelled && model.worker.Running?
      requires Legal(from, es) && model == Exec(from, es)
      modifies this
      ensures Valid() && cancelled && Legal(from, es') && model == Exec(from, es')
      ensures written + ch == old(written) + old(ch)
      ensures model.worker.Draining? && model.accepted == old(model).accepted
    {
      es' := es;
      var receives :| 0 <= receives <= |ch|;
      while receives > 0
        invariant Valid() && cancelled && model.worker.Running?
        invariant Legal(from, es') && model == Exec(from, es')
        invariant 0 <= receives <= |ch| && written + ch == old(written) + old(ch)
        invariant model.accepted == old(model).accepted
        decreases receives
      {
        es' := WriteNext(from, es');
        receives := receives - 1;
      }
      es' := Move(StartDrain, from, es');
    }

    method DrainLoop(ghost from: State, ghost es: seq<Event>) returns (ghost es': seq<Event>)
      requires Valid() && cancelled && model.worker.Draining?
      requires Legal(from, es) && model == Exec(from, es)
      modifies this
      ensures Valid() && cancelled && Legal(from, es') && model == Exec(from, es')
      ensures ch == [] && written == old(written) + old(ch)
      ensures model.worker.Exited? && model.accepted == old(model).accepted
    {
      es' := es;
      while ch != []
        invariant Valid() && cancelled && model.worker.Draining?
        invariant Legal(from, es') && model == Exec(from, es')
        invariant written + ch == old(written) + old(ch)
        invariant model.accepted == old(model).accepted
        decreases |ch|
      {
        es' := WriteNext(from, es');
      }
      es' := Move(Exit, from, es');
    }

    method Worker(ghost from: State, ghost es: seq<Event>) returns (ghost es': seq<Event>)
      requires Valid() && cancelled && model.worker.Running?
      requires Legal(from, es) && model == Exec(from, es)
      modifies this
      ensures Valid() && cancelled && Legal(from, es') && model == Exec(from, es')
      ensures ch == [] && written == old(written) + old(ch)
      ensures model.worker.Exited? && model.accepted == old(model).accepted
    {
      es' := MainLoop(from, es);
      es' := DrainLoop(from, es');
    }

    // goto drain, and return.
    method Move(e: Event, ghost from: State, ghost es: seq<Event>) returns (ghost es': seq<Event>)
      requires Valid() && (e == StartDrain || e == Exit) && Enabled(model, e)
      requires Legal(from, es) && model == Exec(from, es)
      modifies this`model
      ensures Valid() && Legal(from, es') && model == Exec(from, es')
      ensures model == Apply(old(model), e)
    {
      StepKeepsInv(model, e);
      ExecSnoc(from, es, e);
      es' := es + [e];
      model := Apply(model, e);
    }

    // Close cancels and waits: every entry in the channel is written, in order. Closing again
    // does nothing.
    method Close() returns (ghost es: seq<Event>)
      requires Valid() && if cancelled then model.worker.Exited? else model.worker.Running?
      modifies this
      ensures Valid() && Legal(old(model), es) && model == Exec(old(model), es)
      ensures cancelled && model.worker.Exited?
      ensures old(cancelled) ==> model == old(model)
      ensures !old(cancelled) ==> ch == [] && written == old(written) + old(ch) == old(model).accepted
    {
      if cancelled {
        return [];
      }
      StepKeepsInv(model, Cancel);
      ExecSnoc(model, [], Cancel);
      assert [] + [Cancel] == [Cancel];
      cancelled := true;
      model := Apply(model, Cancel);
      es := Worker(old(model), [Cancel]);
    }
  }
}
