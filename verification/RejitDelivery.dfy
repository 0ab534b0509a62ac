/** The request queue over all runs: every batch pushed before shutdown is requested exactly once, in order. */
module RejitDelivery {
  import opened RejitState

  /** A batch is taken for the end marker exactly when its size, cast to 32 bits, is -1. */
  lemma ImitatesEndIff(id: nat, defs: seq<nat>)
    ensures IsEnd(BatchOf(id, defs)) <==> |defs| % TWO_32 == TWO_32 - 1
    ensures 0 < |defs| < TWO_32 - 1 ==> !IsEnd(BatchOf(id, defs))
  {
  }

  predicate NoEnd(items: seq<RejitItem>) {
    forall i :: 0 <= i < |items| ==> !IsEnd(items[i])
  }

  /** Draining a queue that ends with the marker requests everything if and only if nothing in it looks like one. */
  lemma {:induction false} DrainsAllIff(queue: seq<RejitItem>)
    ensures Drain(queue + [END_OF_QUEUE]).0 == queue <==> NoEnd(queue)
    ensures NoEnd(queue) ==> Drain(queue + [END_OF_QUEUE]) == (queue, [])
  {
    var all := queue + [END_OF_QUEUE];
    if queue == [] {
      assert all[1..] == [];
    } else {
      DrainsAllIff(queue[1..]);
      assert all[0] == queue[0] && all[1..] == queue[1..] + [END_OF_QUEUE];
      assert queue == [queue[0]] + queue[1..];
      if NoEnd(queue[1..]) && !IsEnd(queue[0]) {
        assert forall i :: 0 < i < |queue| ==> queue[i] == queue[1..][i - 1];
      }
      if NoEnd(queue) {
        assert forall i :: 0 <= i < |queue| - 1 ==> queue[1..][i] == queue[i + 1];
      }
      if !IsEnd(queue[0]) && Drain(all).0 == queue {
        assert Drain(all).0[1..] == Drain(all[1..]).0;
      }
    }
  }

  /** No batch of the run has a size that is -1 when cast. */
  predicate Honest(e: Event) {
    e.ModuleLoadFinished? ==> !IsEnd(BatchOf(e.id, MethodsOf(e.load.targets)))
  }

  predicate HonestRun(events: seq<Event>) {
    forall i :: 0 <= i < |events| ==> Honest(events[i])
  }

  /** What is delivered and what is queued is what was pushed; nothing is left once the handler is gone. */
  predicate Delivering(s: ProfilerState, h: History) {
    match s.handler
    case None => h.delivered == h.pushed
    case Some(handler) => !handler.stopped && NoEnd(handler.queue) && h.delivered + handler.queue == h.pushed
  }

  lemma DeliveringStep(s: ProfilerState, h: History, e: Event)
    requires Delivering(s, h) && Honest(e)
    ensures Delivering(Step(s, e).0, Track(h, s, e))
  {
    hide AddTargets, BatchOf, Drain, Pairs, Without;
    match e {
      case Shutdown =>
        if s.handler.Some? {
          DrainsAllIff(s.handler.value.queue);
        }
      case WorkerPops =>
        if s.handler.Some? && s.handler.value.queue != [] {
          var q := s.handler.value.queue;
          assert q == [q[0]] + q[1..];
          assert h.delivered + [q[0]] + q[1..] == h.delivered + q;
        }
      case ModuleLoadFinished(id, load) =>
        if s.handler.Some? {
          var q, b := s.handler.value.queue, BatchOf(id, MethodsOf(load.targets));
          assert h.delivered + (q + [b]) == h.delivered + q + [b];
        }
      case _ =>
    }
  }

  lemma {:induction false} RunDelivers(events: seq<Event>)
    requires HonestRun(events)
    ensures Delivering(Run(events).0, Run(events).1)
    decreases |events|
  {
    hide Step, Track, Honest;
    if events == [] {
      StartDelivering();
    } else {
      RunDelivers(events[..|events| - 1]);
      var (s, h) := Run(events[..|events| - 1]);
      DeliveringStep(s, h, events[|events| - 1]);
    }
  }

  lemma StartDelivering()
    ensures Delivering(INITIAL, History({}, [], [], []))
  {
  }

  /** In every run, what has been requested so far is a prefix of what was pushed: each batch once, in order. */
  lemma DeliveredInOrder(events: seq<Event>)
    requires HonestRun(events)
    ensures Run(events).1.delivered <= Run(events).1.pushed
  {
    hide Run;
    RunDelivers(events);
  }

  /** Once the profiler has shut down, everything that was pushed has been requested. */
  lemma AllDeliveredAtShutdown(events: seq<Event>)
    requires HonestRun(events)
    ensures Run(events + [Shutdown]).1.delivered == Run(events + [Shutdown]).1.pushed == Run(events).1.pushed
  {
    hide Step, Drain;
    var all := events + [Shutdown];
    RunDelivers(events);
    RunDelivers(all);
    assert all[..|all| - 1] == events;
    var (s, h) := Run(events);
    assert Step(s, Shutdown).0.handler.None? by { GoneAfterShutdown(s); }
  }

  lemma GoneAfterShutdown(s: ProfilerState)
    ensures Step(s, Shutdown).0.handler.None?
  {
  }
}
