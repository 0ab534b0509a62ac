/** Safety of the ReJIT machine over all runs: what the handler knows, what is rewritten, what is never inlined. */
module RejitSafety {
  import opened RejitState

  /** The handler holds what a rewriting needs for this method, function control aside. */
  predicate Known(s: ProfilerState, id: nat, def: nat) {
    && s.handler.Some? && id in s.handler.value.modules && def in s.handler.value.modules[id].methods
    && s.handler.value.modules[id].methods[def].info.Some?
  }

  /** Every module in the handler is in the module map, with that metadata. */
  predicate HandlerWithinModules(s: ProfilerState) {
    s.handler.Some? ==>
      forall id :: id in s.handler.value.modules ==>
        id in s.modules && s.handler.value.modules[id].metadata == Some(s.modules[id])
  }

  /** Function information and replacement come together. */
  predicate Paired(s: ProfilerState) {
    s.handler.Some? ==> ModulesPaired(s.handler.value.modules)
  }

  predicate ModulesPaired(ms: Modules) {
    forall id: nat, def: nat :: id in ms && def in ms[id].methods ==> MethodPaired(ms[id].methods[def])
  }

  predicate MethodPaired(m: MethodState) {
    m.info.Some? == m.replacement.Some?
  }

  /** Metadata objects in the module map were created before. */
  predicate SerialsBelow(s: ProfilerState) {
    forall id :: id in s.modules ==> s.modules[id].serial < s.created
  }

  /** The handler knows every method enqueued since its module's last load, and the module is loaded. */
  ghost predicate EnqueuedKnown(s: ProfilerState, h: History) {
    forall id: nat, def: nat :: (id, def) in h.enqueued ==> id in s.modules && Known(s, id, def)
  }

  /** And knows no others. */
  ghost predicate KnownEnqueued(s: ProfilerState, h: History) {
    forall id: nat, def: nat :: Known(s, id, def) ==> (id, def) in h.enqueued
  }

  predicate HooksOnce(s: ProfilerState, h: History) {
    && (forall i :: 0 <= i < |h.hooks| ==> h.hooks[i] in s.firstJit)
    && (forall i, j :: 0 <= i < j < |h.hooks| ==> h.hooks[i] != h.hooks[j])
  }

  /** What every callback keeps, whatever modules are loaded again. */
  ghost predicate Inv(s: ProfilerState, h: History) {
    && (s.attached ==> s.handler.Some?)
    && SerialsBelow(s) && Paired(s) && EnqueuedKnown(s, h) && HooksOnce(s, h)
  }

  // ---- entering targets

  predicate TargetAmong(ts: seq<Target>, def: nat) {
    exists i :: 0 <= i < |ts| && ts[i].def == def
  }

  /** A module after its targets have been entered: the metadata is new, old methods stay, the targets are known. */
  ghost predicate Entered(before: ModuleState, metadata: Metadata, ts: seq<Target>, after: ModuleState) {
    && after.metadata == Some(metadata)
    && (forall def: nat :: def in after.methods <==> def in before.methods || TargetAmong(ts, def))
    && (forall def: nat :: TargetAmong(ts, def) ==>
          after.methods[def].info.Some? && after.methods[def].replacement.Some?)
    && (forall def: nat :: def in before.methods && !TargetAmong(ts, def) ==>
          after.methods[def] == before.methods[def])
  }

  lemma {:induction false} TargetsEntered(ms: Modules, id: nat, metadata: Metadata, ts: seq<Target>)
    requires ts != []
    ensures var r := AddTargets(ms, id, metadata, ts);
            && r == ms[id := r[id]] && Entered(ModuleOf(ms, id), metadata, ts, r[id])
    decreases |ts|
  {
    var front, last := ts[..|ts| - 1], ts[|ts| - 1];
    var m, r := AddTargets(ms, id, metadata, front), AddTargets(ms, id, metadata, ts);
    if front == [] {
      assert forall def: nat :: TargetAmong(ts, def) <==> def == last.def by { AmongEmpty(front); AmongLastAll(ts); }
    } else {
      TargetsEntered(ms, id, metadata, front);
      AmongLastAll(ts);
    }
  }

  lemma AmongEmpty(ts: seq<Target>)
    requires ts == []
    ensures forall def: nat :: !TargetAmong(ts, def)
  {
  }

  lemma AmongLastAll(ts: seq<Target>)
    requires ts != []
    ensures forall def: nat :: TargetAmong(ts, def) <==> TargetAmong(ts[..|ts| - 1], def) || ts[|ts| - 1].def == def
  {
    forall def: nat
      ensures TargetAmong(ts, def) <==> TargetAmong(ts[..|ts| - 1], def) || ts[|ts| - 1].def == def
    {
      AmongLast(ts, def);
    }
  }

  lemma AmongLast(ts: seq<Target>, def: nat)
    requires ts != []
    ensures TargetAmong(ts, def) <==> TargetAmong(ts[..|ts| - 1], def) || ts[|ts| - 1].def == def
  {
    if TargetAmong(ts, def) {
      var i :| 0 <= i < |ts| && ts[i].def == def;
      if i < |ts| - 1 {
        assert ts[..|ts| - 1][i].def == def;
      }
    }
    if TargetAmong(ts[..|ts| - 1], def) {
      var i :| 0 <= i < |ts| - 1 && ts[..|ts| - 1][i].def == def;
      assert ts[i].def == def;
    }
  }

  lemma PairsAre(id: nat, ts: seq<Target>, i: nat, def: nat)
    ensures (i, def) in Pairs(id, ts) <==> i == id && TargetAmong(ts, def)
  {
    if i == id && TargetAmong(ts, def) {
      var k :| 0 <= k < |ts| && ts[k].def == def;
      assert (id, ts[k].def) in Pairs(id, ts);
    }
  }

  // ---- loads

  /** The load reaches the handler. */
  predicate ReachesHandler(s: ProfilerState, load: LoadInfo) {
    Stores(s, load) && s.handler.Some?
  }

  /** The handler after a load. */
  lemma HandlerAfterLoad(s: ProfilerState, id: nat, load: LoadInfo)
    requires ReachesHandler(s, load)
    ensures var ms := s.handler.value.modules;
            var t := LoadStep(s, id, load);
            && t.handler.Some? && t.modules == s.modules[id := Metadata(s.created, load.appDomain)]
            && t.attached == s.attached && t.firstJit == s.firstJit && t.created == s.created + 1
            && (load.targets == [] ==> t.handler.value.modules == ms)
            && (load.targets != [] ==>
                 id in t.handler.value.modules && t.handler.value.modules == ms[id := t.handler.value.modules[id]]
                 && Entered(ModuleOf(ms, id), Metadata(s.created, load.appDomain), load.targets,
                            t.handler.value.modules[id]))
  {
    hide AddTargets, Entered;
    if load.targets != [] {
      TargetsEntered(s.handler.value.modules, id, Metadata(s.created, load.appDomain), load.targets);
    }
  }

  /** What the handler knows after a load: what it knew, and the targets. */
  lemma KnownAfterLoad(s: ProfilerState, id: nat, load: LoadInfo, i: nat, def: nat)
    requires ReachesHandler(s, load)
    ensures Known(LoadStep(s, id, load), i, def) <==> Known(s, i, def) || (i == id && TargetAmong(load.targets, def))
  {
    hide LoadStep;
    HandlerAfterLoad(s, id, load);
  }

  lemma LoadKeeps(s: ProfilerState, h: History, id: nat, load: LoadInfo)
    requires Inv(s, h)
    ensures Inv(LoadStep(s, id, load), Track(h, s, ModuleLoadFinished(id, load)))
  {
    hide AddTargets;
    if ReachesHandler(s, load) {
      var s', h' := LoadStep(s, id, load), Track(h, s, ModuleLoadFinished(id, load));
      forall i: nat, def: nat | (i, def) in h'.enqueued ensures i in s'.modules && Known(s', i, def) {
        PairsAre(id, load.targets, i, def);
        KnownAfterLoad(s, id, load, i, def);
      }
      LoadKeepsPaired(s, id, load);
      HandlerAfterLoad(s, id, load);
    } else {
      NotReached(s, h, id, load);
    }
  }

  lemma LoadKeepsPaired(s: ProfilerState, id: nat, load: LoadInfo)
    requires Paired(s) && ReachesHandler(s, load)
    ensures Paired(LoadStep(s, id, load))
  {
    hide LoadStep;
    HandlerAfterLoad(s, id, load);
    var ms, r := s.handler.value.modules, LoadStep(s, id, load).handler.value.modules;
    forall i: nat, def: nat | i in r && def in r[i].methods ensures MethodPaired(r[i].methods[def]) {
      assert i in ms && def in ms[i].methods ==> MethodPaired(ms[i].methods[def]);
    }
  }

  /** A load that does not reach the handler changes no more than the module map and the two AppDomain facts. */
  lemma NotReached(s: ProfilerState, h: History, id: nat, load: LoadInfo)
    requires Inv(s, h) && !ReachesHandler(s, load)
    ensures Inv(LoadStep(s, id, load), Track(h, s, ModuleLoadFinished(id, load)))
  {
    hide RequestRejit, Known;
    SameKnown(s, LoadStep(s, id, load));
  }

  lemma SameKnown(s: ProfilerState, t: ProfilerState)
    requires s.handler == t.handler
    ensures forall id: nat, def: nat :: Known(s, id, def) <==> Known(t, id, def)
  {
  }

  // ---- every step keeps the invariant

  lemma UnloadKeeps(s: ProfilerState, h: History, id: nat)
    requires Inv(s, h)
    ensures Inv(UnloadStep(s, id), Track(h, s, ModuleUnloadStarted(id)))
  {
    var s', h' := UnloadStep(s, id), Track(h, s, ModuleUnloadStarted(id));
    forall i: nat, def: nat | (i, def) in h'.enqueued ensures i in s'.modules && Known(s', i, def) {
      assert Known(s, i, def);
    }
  }

  lemma JitKeeps(s: ProfilerState, h: History, jit: JitInfo)
    requires Inv(s, h)
    ensures Inv(JitStep(s, jit).0, Track(h, s, JITCompilationStarted(jit)))
  {
    hide Known;
    SameKnown(s, JitStep(s, jit).0);
  }

  lemma SameKnownAfterParameters(s: ProfilerState, id: nat, def: nat, control: Option<nat>)
    ensures forall i: nat, d: nat :: Known(ParametersStep(s, id, def, control).0, i, d) <==> Known(s, i, d)
  {
  }

  lemma ParametersKeep(s: ProfilerState, h: History, id: nat, def: nat, control: Option<nat>)
    requires Inv(s, h)
    ensures Inv(ParametersStep(s, id, def, control).0, h)
  {
    var s' := ParametersStep(s, id, def, control).0;
    SameKnownAfterParameters(s, id, def, control);
    if s.attached && id in s.modules {
      var ms, ms' := s.handler.value.modules, s'.handler.value.modules;
      forall i: nat, d: nat | i in ms' && d in ms'[i].methods ensures MethodPaired(ms'[i].methods[d]) {
        assert i in ms && d in ms[i].methods ==> MethodPaired(ms[i].methods[d]);
      }
    }
  }

  lemma WorkerKeeps(s: ProfilerState, h: History)
    requires Inv(s, h)
    ensures Inv(WorkerStep(s).0, Track(h, s, WorkerPops))
  {
    SameKnownAfterWorker(s);
  }

  lemma SameKnownAfterWorker(s: ProfilerState)
    ensures forall i: nat, d: nat :: Known(WorkerStep(s).0, i, d) <==> Known(s, i, d)
  {
  }

  /** The invariant is kept by every callback, loads of a module that is loaded already included. */
  lemma StepKeeps(s: ProfilerState, h: History, e: Event)
    requires Inv(s, h)
    ensures Inv(Step(s, e).0, Track(h, s, e))
  {
    hide LoadStep, UnloadStep, JitStep, ParametersStep, WorkerStep, Known, Drain;
    match e {
      case ModuleLoadFinished(id, load) => LoadKeeps(s, h, id, load);
      case ModuleUnloadStarted(id) => UnloadKeeps(s, h, id);
      case ManagedAssemblyLoaded(d) => SameKnown(s, s.(managed := s.managed + {d}));
      case JITCompilationStarted(jit) => JitKeeps(s, h, jit);
      case JITInlining(_, _, _) =>
      case GetReJITParameters(id, def, control) => ParametersKeep(s, h, id, def, control);
      case WorkerPops => WorkerKeeps(s, h);
      case Shutdown =>
      case DetachSucceeded => SameKnown(s, s.(attached := false));
    }
  }

  /** And so holds in every run. */
  lemma {:induction false} RunKeeps(events: seq<Event>)
    ensures Inv(Run(events).0, Run(events).1)
    decreases |events|
  {
    hide Step, Track, Inv;
    if events == [] {
      InitialInv();
    } else {
      RunKeeps(events[..|events| - 1]);
      var (s, h) := Run(events[..|events| - 1]);
      StepKeeps(s, h, events[|events| - 1]);
    }
  }

  lemma InitialInv()
    ensures Inv(INITIAL, History({}, [], [], []))
  {
  }

  // ---- the handler's metadata, and when a load keeps it

  /** The load stores new metadata for a module the handler has, and gives the handler no targets to see it with. */
  predicate LeavesStale(s: ProfilerState, id: nat, load: LoadInfo) {
    ReachesHandler(s, load) && id in s.handler.value.modules && load.targets == []
  }

  /** A load keeps handler and module map in step if and only if it does not leave the handler's metadata stale. */
  lemma LoadKeepsMetadataIff(s: ProfilerState, id: nat, load: LoadInfo)
    requires HandlerWithinModules(s) && SerialsBelow(s)
    ensures HandlerWithinModules(LoadStep(s, id, load)) <==> !LeavesStale(s, id, load)
  {
    hide AddTargets;
    if ReachesHandler(s, load) {
      hide LoadStep;
      HandlerAfterLoad(s, id, load);
    }
  }

  predicate KeepsMetadata(s: ProfilerState, e: Event) {
    e.ModuleLoadFinished? ==> !LeavesStale(s, e.id, e.load)
  }

  lemma StepKeepsMetadataIff(s: ProfilerState, e: Event)
    requires HandlerWithinModules(s) && SerialsBelow(s)
    ensures HandlerWithinModules(Step(s, e).0) <==> KeepsMetadata(s, e)
  {
    hide LoadStep, Drain;
    if e.ModuleLoadFinished? {
      LoadKeepsMetadataIff(s, e.id, e.load);
    }
  }

  /** No load of the run leaves metadata stale. */
  ghost predicate MetadataRun(events: seq<Event>)
    decreases |events|
  {
    events != [] ==>
      MetadataRun(events[..|events| - 1]) && KeepsMetadata(Run(events[..|events| - 1]).0, events[|events| - 1])
  }

  /** Up to here the handler was in step with the module map after every callback. */
  ghost predicate AlwaysWithinModules(events: seq<Event>)
    decreases |events|
  {
    HandlerWithinModules(Run(events).0) && (events != [] ==> AlwaysWithinModules(events[..|events| - 1]))
  }

  /**
   Throughout a run each module in the handler is in the module map with that same metadata, if and only if no load
   of the run leaves the handler's metadata stale.
   */
  lemma {:induction false} AlwaysWithinModulesIff(events: seq<Event>)
    ensures AlwaysWithinModules(events) <==> MetadataRun(events)
    decreases |events|
  {
    hide Step, Track, HandlerWithinModules, KeepsMetadata;
    if events == [] {
      assert HandlerWithinModules(INITIAL) by { InitialWithin(); }
    } else {
      var front := events[..|events| - 1];
      AlwaysWithinModulesIff(front);
      RunKeeps(front);
      if AlwaysWithinModules(front) {
        assert HandlerWithinModules(Run(front).0);
        StepKeepsMetadataIff(Run(front).0, events[|events| - 1]);
      }
    }
  }

  lemma InitialWithin()
    ensures HandlerWithinModules(INITIAL)
  {
  }

  /** In every such run, each module in the handler is in the module map with that same metadata. */
  lemma HandlerAlwaysWithinModules(events: seq<Event>, id: nat)
    requires MetadataRun(events)
    requires Run(events).0.handler.Some? && id in Run(events).0.handler.value.modules
    ensures var s := Run(events).0;
            id in s.modules && s.handler.value.modules[id].metadata == Some(s.modules[id])
  {
    hide Run, MetadataRun;
    AlwaysWithinModulesIff(events);
  }

  // ---- what the handler knows, and when a load keeps that

  /** The load reaches the handler, but some method the handler knows is not among the new targets. */
  ghost predicate LeavesExtra(s: ProfilerState, id: nat, load: LoadInfo) {
    ReachesHandler(s, load) && exists def: nat :: Known(s, id, def) && !TargetAmong(load.targets, def)
  }

  /** After a load the handler knows only enqueued methods if and only if every method it knew is a target again. */
  lemma LoadKeepsKnowledgeIff(s: ProfilerState, h: History, id: nat, load: LoadInfo)
    requires KnownEnqueued(s, h)
    ensures KnownEnqueued(LoadStep(s, id, load), Track(h, s, ModuleLoadFinished(id, load)))
            <==> !LeavesExtra(s, id, load)
  {
    hide AddTargets;
    var s', h' := LoadStep(s, id, load), Track(h, s, ModuleLoadFinished(id, load));
    if ReachesHandler(s, load) {
      forall i: nat, def: nat
        ensures Known(s', i, def) <==> Known(s, i, def) || (i == id && TargetAmong(load.targets, def))
        ensures (i, def) in h'.enqueued <==>
                  ((i, def) in h.enqueued && i != id) || (i == id && TargetAmong(load.targets, def))
      {
        KnownAfterLoad(s, id, load, i, def);
        PairsAre(id, load.targets, i, def);
      }
    } else {
      hide Known;
      SameKnown(s, s');
    }
  }

  ghost predicate KeepsKnowledge(s: ProfilerState, e: Event) {
    e.ModuleLoadFinished? ==> !LeavesExtra(s, e.id, e.load)
  }

  lemma StepKeepsKnowledgeIff(s: ProfilerState, h: History, e: Event)
    requires KnownEnqueued(s, h)
    ensures KnownEnqueued(Step(s, e).0, Track(h, s, e)) <==> KeepsKnowledge(s, e)
  {
    hide LoadStep, JitStep, ParametersStep, WorkerStep, Drain, RequestRejit;
    match e {
      case ModuleLoadFinished(id, load) => LoadKeepsKnowledgeIff(s, h, id, load);
      case ModuleUnloadStarted(id) =>
      case ManagedAssemblyLoaded(d) =>
      case JITCompilationStarted(jit) => SameHandlerAfterJit(s, jit);
      case JITInlining(_, _, _) =>
      case GetReJITParameters(id, def, control) => SameKnownAfterParameters(s, id, def, control);
      case WorkerPops => SameKnownAfterWorker(s);
      case Shutdown =>
      case DetachSucceeded =>
    }
  }

  lemma SameHandlerAfterJit(s: ProfilerState, jit: JitInfo)
    ensures JitStep(s, jit).0.handler == s.handler
  {
  }

  /** No load of the run leaves the handler with methods that are not targets any more. */
  ghost predicate KnowledgeRun(events: seq<Event>)
    decreases |events|
  {
    events != [] ==>
      KnowledgeRun(events[..|events| - 1]) && KeepsKnowledge(Run(events[..|events| - 1]).0, events[|events| - 1])
  }

  ghost predicate AlwaysKnownEnqueued(events: seq<Event>)
    decreases |events|
  {
    && KnownEnqueued(Run(events).0, Run(events).1)
    && (events != [] ==> AlwaysKnownEnqueued(events[..|events| - 1]))
  }

  /**
   Throughout a run the handler knows exactly the methods enqueued since their module's last load, if and only if
   every load repeats the targets its module had.
   */
  lemma {:induction false} AlwaysKnownEnqueuedIff(events: seq<Event>)
    ensures AlwaysKnownEnqueued(events) <==> KnowledgeRun(events)
    decreases |events|
  {
    hide Step, Track, KnownEnqueued, KeepsKnowledge;
    if events == [] {
      assert KnownEnqueued(INITIAL, History({}, [], [], [])) by { InitialKnown(); }
    } else {
      var front := events[..|events| - 1];
      AlwaysKnownEnqueuedIff(front);
      if AlwaysKnownEnqueued(front) {
        var (s, h) := Run(front);
        StepKeepsKnowledgeIff(s, h, events[|events| - 1]);
      }
    }
  }

  lemma InitialKnown()
    ensures KnownEnqueued(INITIAL, History({}, [], [], []))
  {
  }

  // ---- what this means for the callbacks

  /** The rewrite callback is run for a method exactly when the handler knows it and gets its function control. */
  lemma RewrittenIffKnown(events: seq<Event>, id: nat, def: nat, control: Option<nat>)
    ensures var s := Run(events).0;
            Step(s, GetReJITParameters(id, def, control)).1.RewriteCallback?
            <==> s.attached && id in s.modules && Known(s, id, def)
                 && control.Some? && def != METHOD_DEF_NIL && id != 0
  {
    hide Run;
    RunKeeps(events);
    var s := Run(events).0;
    if Known(s, id, def) {
      assert MethodPaired(s.handler.value.modules[id].methods[def]);
    }
  }

  /** The rewrite callback only runs for methods enqueued since their module's last load, with its metadata. */
  lemma OnlyEnqueuedRewritten(events: seq<Event>, e: Event)
    requires KnowledgeRun(events) && Step(Run(events).0, e).1.RewriteCallback?
    ensures var (s, h) := Run(events);
            var out := Step(s, e).1;
            && e.GetReJITParameters? && (out.id, out.def) in h.enqueued
            && out.id in s.modules && out.metadata == s.modules[out.id]
  {
    hide Run, LoadStep, UnloadStep, Drain;
    assert e.GetReJITParameters?;
    AlwaysKnownEnqueuedIff(events);
    var (s, h) := Run(events);
    assert Known(s, e.id, e.def);
  }

  /** In every run the callback does run for an enqueued method once its function control is there. */
  lemma EnqueuedIsRewritten(events: seq<Event>, id: nat, def: nat, control: Option<nat>)
    requires (id, def) in Run(events).1.enqueued
    requires Run(events).0.attached && control.Some? && def != METHOD_DEF_NIL && id != 0
    ensures Step(Run(events).0, GetReJITParameters(id, def, control)).1.RewriteCallback?
  {
    hide Run, Step;
    RunKeeps(events);
    RewrittenIffKnown(events, id, def, control);
  }

  /** Events that end the protection of a module's methods. */
  predicate Ends(e: Event, id: nat) {
    e == ModuleUnloadStarted(id) || e == Shutdown
  }

  lemma KnownStays(s: ProfilerState, e: Event, id: nat, def: nat)
    requires Known(s, id, def) && !Ends(e, id)
    ensures Known(Step(s, e).0, id, def)
  {
    hide LoadStep, ParametersStep, WorkerStep, JitStep, Drain;
    match e {
      case ModuleLoadFinished(i, load) => KnownStaysOnLoad(s, i, load, id, def);
      case JITCompilationStarted(jit) => SameHandlerAfterJit(s, jit);
      case GetReJITParameters(i, d, control) => SameKnownAfterParameters(s, i, d, control);
      case WorkerPops => SameKnownAfterWorker(s);
      case _ =>
    }
  }

  lemma KnownStaysOnLoad(s: ProfilerState, i: nat, load: LoadInfo, id: nat, def: nat)
    requires Known(s, id, def)
    ensures Known(LoadStep(s, i, load), id, def)
  {
    hide RequestRejit;
    if ReachesHandler(s, load) {
      KnownAfterLoad(s, i, load, id, def);
    }
  }

  /** What the handler knows it knows until then, in every run. */
  lemma {:induction false} KnownUntilEnd(events: seq<Event>, more: seq<Event>, id: nat, def: nat)
    requires Known(Run(events).0, id, def) && forall i :: 0 <= i < |more| ==> !Ends(more[i], id)
    ensures Known(Run(events + more).0, id, def)
    decreases |more|
  {
    hide Step, Known, Track, Ends;
    var all := events + more;
    if more == [] {
      assert all == events;
    } else {
      var front, last := more[..|more| - 1], more[|more| - 1];
      KnownUntilEnd(events, front, id, def);
      assert all[..|all| - 1] == events + front && all[|all| - 1] == last;
      KnownStays(Run(events + front).0, last, id, def);
    }
  }

  /**
   An enqueued method is never allowed to inline until its module is unloaded or the profiler shuts down, in every
   run, whatever happens in between, loads of the same module included.
   */
  lemma EnqueuedNeverInlined(events: seq<Event>, more: seq<Event>, id: nat, def: nat)
    requires (id, def) in Run(events).1.enqueued
    requires forall i :: 0 <= i < |more| ==> !Ends(more[i], id)
    ensures Run(events + more).0.attached ==>
              Step(Run(events + more).0, JITInlining(true, id, def)).1 == ShouldInline(false)
  {
    hide Run, Step, Known, Ends;
    RunKeeps(events);
    KnownUntilEnd(events, more, id, def);
    if Run(events + more).0.attached {
      InliningRefused(Run(events + more).0, id, def);
    }
  }

  lemma InliningRefused(s: ProfilerState, id: nat, def: nat)
    requires Known(s, id, def) && s.attached
    ensures Step(s, JITInlining(true, id, def)).1 == ShouldInline(false)
  {
  }

  /** The load is of this module and enqueues targets, but not this method. */
  predicate Drops(s: ProfilerState, e: Event, id: nat, def: nat) {
    e.ModuleLoadFinished? && e.id == id && ReachesHandler(s, e.load) && !TargetAmong(e.load.targets, def)
  }

  /** In every run, what ends a method's being enqueued: an unload, the shutdown, or a load that drops it. */
  lemma EnqueuedUntilUnload(events: seq<Event>, e: Event, id: nat, def: nat)
    requires (id, def) in Run(events).1.enqueued
    ensures var (s, h) := Run(events);
            (id, def) in Track(h, s, e).enqueued
            <==> !(e == ModuleUnloadStarted(id) && s.attached) && e != Shutdown && !Drops(s, e, id, def)
  {
    hide Run, Step, TargetAmong;
    RunKeeps(events);
    if e.ModuleLoadFinished? {
      PairsAre(e.id, e.load.targets, id, def);
    }
  }

  /** In every run, each AppDomain gets the startup hook at most once. */
  lemma HookAtMostOnce(events: seq<Event>, i: nat, j: nat)
    requires i < j < |Run(events).1.hooks|
    ensures Run(events).1.hooks[i] != Run(events).1.hooks[j]
  {
    hide Run;
    RunKeeps(events);
  }

  /** A run that leaves metadata stale: a module with targets is loaded again without any. */
  lemma ReloadKeepsOldMetadata(load: LoadInfo, again: LoadInfo, id: nat)
    requires load.ok && load.valid && !load.isCorlib && !load.isLoader && load.wanted && load.targets != []
    requires again == load.(targets := [])
    ensures !HandlerWithinModules(Run([ModuleLoadFinished(id, load), ModuleLoadFinished(id, again)]).0)
  {
    hide LoadStep;
    var e1, e2 := ModuleLoadFinished(id, load), ModuleLoadFinished(id, again);
    assert [e1, e2][..1] == [e1] && [e1][..0] == [];
    assert Run([e1]).0 == Step(INITIAL, e1).0;
    HandlerAfterLoad(INITIAL, id, load);
    RunKeeps([e1]);
    LoadKeepsMetadataIff(INITIAL, id, load);
    LoadKeepsMetadataIff(Run([e1]).0, id, again);
  }
}
