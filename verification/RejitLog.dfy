/**
 The ReJIT machine's state from the events alone: which modules are loaded, which methods the handler has, which
 AppDomains have had their hook, what has been requested, and what the callbacks answer, as facts about what happened
 before.
 */
module RejitLog {
  import opened RejitState
  import opened RejitSafety
  import opened RejitDelivery

  // ---- what the events say

  /** The profiler is attached when event n happens. */
  predicate Attached(events: seq<Event>, n: nat)
    requires n <= |events|
  {
    forall j :: 0 <= j < n ==> events[j] != Shutdown && events[j] != DetachSucceeded
  }

  predicate Running(events: seq<Event>, n: nat)
    requires n <= |events|
  {
    forall j :: 0 <= j < n ==> events[j] != Shutdown
  }

  /** A module has been loaded, can be read, and the profiler looks at it. */
  predicate Looks(events: seq<Event>, i: nat)
    requires i < |events|
  {
    events[i].ModuleLoadFinished? && events[i].load.ok && events[i].load.valid && Attached(events, i)
  }

  /** The core library has been seen before event n: its first load is passed over. */
  predicate CorlibSeen(events: seq<Event>, n: nat)
    requires n <= |events|
  {
    exists j :: 0 <= j < n && Looks(events, j) && events[j].load.isCorlib
  }

  predicate PassedOver(events: seq<Event>, i: nat)
    requires i < |events|
  {
    Looks(events, i) && events[i].load.isCorlib && !CorlibSeen(events, i)
  }

  /** Event i stores module id. */
  predicate Accepts(events: seq<Event>, i: nat, id: nat)
    requires i < |events|
  {
    && Looks(events, i) && !PassedOver(events, i)
    && events[i].id == id && !events[i].load.isLoader && events[i].load.wanted
  }

  /** Event i brings the loader into AppDomain d. */
  predicate LoadsLoader(events: seq<Event>, i: nat, d: nat)
    requires i < |events|
  {
    Looks(events, i) && !PassedOver(events, i) && events[i].load.isLoader && events[i].load.appDomain == d
  }

  /** Event i takes module id away. */
  predicate Unloads(events: seq<Event>, i: nat, id: nat)
    requires i < |events|
  {
    events[i] == ModuleUnloadStarted(id) && Attached(events, i)
  }

  /** The module is not unloaded between event i and event n. */
  predicate Stays(events: seq<Event>, i: nat, n: nat, id: nat)
    requires n <= |events|
  {
    forall j :: i < j < n ==> !Unloads(events, j, id)
  }

  /** Event i is the load that module id stands from when event n happens. */
  predicate Current(events: seq<Event>, i: nat, n: nat, id: nat)
    requires i < n <= |events|
  {
    Accepts(events, i, id) && Stays(events, i, n, id) && forall j :: i < j < n ==> !Accepts(events, j, id)
  }

  predicate Loaded(events: seq<Event>, n: nat, id: nat)
    requires n <= |events|
  {
    exists i :: 0 <= i < n && Current(events, i, n, id)
  }

  predicate InDomain(events: seq<Event>, i: nat, d: nat)
    requires i < |events|
  {
    events[i].ModuleLoadFinished? && events[i].load.appDomain == d
  }

  predicate LoadedIn(events: seq<Event>, n: nat, id: nat, d: nat)
    requires n <= |events|
  {
    exists i :: 0 <= i < n && Current(events, i, n, id) && InDomain(events, i, d)
  }

  /** The method is a target of event i, a load of the module. */
  predicate Targets(events: seq<Event>, i: nat, id: nat, def: nat)
    requires i < |events|
  {
    Accepts(events, i, id) && TargetAmong(events[i].load.targets, def)
  }

  /** Event i is a question for the parameters of the method, of a module that is loaded then. */
  predicate Asks(events: seq<Event>, i: nat, id: nat, def: nat)
    requires i < |events|
  {
    && events[i].GetReJITParameters? && events[i].id == id && events[i].def == def
    && Attached(events, i) && Loaded(events, i, id)
  }

  /** Event i is a compilation that may get the hook for AppDomain d. */
  predicate Qualifies(events: seq<Event>, i: nat, d: nat)
    requires i < |events|
  {
    && events[i].JITCompilationStarted? && Attached(events, i)
    && var jit := events[i].jit;
       && jit.safeToBlock && jit.infoOk && jit.callerValid && jit.validCallsite
       && LoadedIn(events, i, jit.moduleId, d)
  }

  // ---- one step

  lemma RunNext(events: seq<Event>, n: nat)
    requires n < |events|
    ensures Run(events[..n + 1])
            == (Step(Run(events[..n]).0, events[n]).0, Track(Run(events[..n]).1, Run(events[..n]).0, events[n]))
  {
    hide Step, Track;
    assert events[..n + 1][..n] == events[..n];
  }

  /** The three flags. */
  predicate Flags(events: seq<Event>, n: nat, s: ProfilerState)
    requires n <= |events|
  {
    && s.attached == Attached(events, n) && s.handler.Some? == Running(events, n)
    && s.corlibLoaded == CorlibSeen(events, n)
  }

  lemma AttachedNext(events: seq<Event>, n: nat)
    requires n < |events|
    ensures Attached(events, n + 1) == (Attached(events, n) && events[n] != Shutdown && events[n] != DetachSucceeded)
    ensures Running(events, n + 1) == (Running(events, n) && events[n] != Shutdown)
    ensures Attached(events, n) ==> Running(events, n)
  {
  }

  lemma CorlibNext(events: seq<Event>, n: nat)
    requires n < |events|
    ensures CorlibSeen(events, n + 1) == (CorlibSeen(events, n) || (Looks(events, n) && events[n].load.isCorlib))
  {
  }

  lemma FlagsNext(events: seq<Event>, n: nat, s: ProfilerState)
    requires n < |events| && Flags(events, n, s)
    ensures Flags(events, n + 1, Step(s, events[n]).0)
  {
    hide Attached, Running, CorlibSeen, RequestRejit, NotifyParameters, Drain;
    AttachedNext(events, n);
    CorlibNext(events, n);
  }

  /** What a load does, in terms of the events. */
  lemma StoresIff(events: seq<Event>, n: nat, s: ProfilerState)
    requires n < |events| && Flags(events, n, s) && events[n].ModuleLoadFinished?
    ensures ReachesHandler(s, events[n].load) == Stores(s, events[n].load) == Accepts(events, n, events[n].id)
  {
    hide CorlibSeen;
    AttachedNext(events, n);
  }

  // ---- the module map

  ghost predicate Map(events: seq<Event>, n: nat, s: ProfilerState)
    requires n <= |events|
  {
    && (forall id: nat :: id in s.modules <==> Loaded(events, n, id))
    && (forall i: nat, id: nat :: i < n && Current(events, i, n, id) ==>
          id in s.modules && InDomain(events, i, s.modules[id].appDomain))
  }

  lemma CurrentNext(events: seq<Event>, i: nat, n: nat, id: nat)
    requires i <= n < |events|
    ensures Current(events, i, n + 1, id)
            == if i == n then Accepts(events, n, id)
               else Current(events, i, n, id) && !Unloads(events, n, id) && !Accepts(events, n, id)
  {
    hide Accepts, Unloads;
  }

  lemma LoadedNext(events: seq<Event>, n: nat, id: nat)
    requires n < |events|
    ensures Loaded(events, n + 1, id)
            == (Accepts(events, n, id) || (Loaded(events, n, id) && !Unloads(events, n, id)))
  {
    hide Accepts, Unloads, Current;
    CurrentNext(events, n, n, id);
    if Loaded(events, n + 1, id) {
      var i :| 0 <= i < n + 1 && Current(events, i, n + 1, id);
      CurrentNext(events, i, n, id);
    }
    if Loaded(events, n, id) {
      var i :| 0 <= i < n && Current(events, i, n, id);
      CurrentNext(events, i, n, id);
    }
  }

  /** The module map after a step. */
  lemma ModulesNext(events: seq<Event>, n: nat, s: ProfilerState, id: nat)
    requires n < |events| && Flags(events, n, s)
    ensures var t := Step(s, events[n]).0;
            && (Accepts(events, n, id) ==> id in t.modules && InDomain(events, n, t.modules[id].appDomain))
            && (Unloads(events, n, id) ==> id !in t.modules)
            && (!Accepts(events, n, id) && !Unloads(events, n, id) ==>
                 (id in t.modules <==> id in s.modules)
                 && (id in s.modules ==> t.modules[id] == s.modules[id]))
  {
    hide CorlibSeen, RequestRejit, NotifyParameters, Drain, Flags, Accepts, Attached;
    assert s.attached == Attached(events, n) by { FlagsMean(events, n, s); }
    if events[n].ModuleLoadFinished? {
      StoresIff(events, n, s);
      AcceptsOwn(events, n, id);
    } else {
      OnlyLoadsAccept(events, n, id);
    }
  }

  lemma FlagsMean(events: seq<Event>, n: nat, s: ProfilerState)
    requires n <= |events| && Flags(events, n, s)
    ensures s.attached == Attached(events, n) && s.handler.Some? == Running(events, n)
    ensures s.corlibLoaded == CorlibSeen(events, n)
  {
  }

  lemma AcceptsOwn(events: seq<Event>, n: nat, id: nat)
    requires n < |events| && events[n].ModuleLoadFinished?
    ensures Accepts(events, n, id) == (events[n].id == id && Accepts(events, n, events[n].id))
  {
    hide Looks, PassedOver;
  }

  lemma OnlyLoadsAccept(events: seq<Event>, n: nat, id: nat)
    requires n < |events| && !events[n].ModuleLoadFinished?
    ensures !Accepts(events, n, id)
  {
  }

  lemma MapNext(events: seq<Event>, n: nat, s: ProfilerState)
    requires n < |events| && Flags(events, n, s) && Map(events, n, s)
    ensures Map(events, n + 1, Step(s, events[n]).0)
  {
    hide Step, Accepts, Unloads, Current, Loaded, Flags;
    var t, m := Step(s, events[n]).0, n + 1;
    forall id: nat ensures id in t.modules <==> Loaded(events, m, id) {
      LoadedNext(events, n, id);
      ModulesNext(events, n, s, id);
    }
    forall i: nat, id: nat | i < m && Current(events, i, m, id)
      ensures id in t.modules && InDomain(events, i, t.modules[id].appDomain)
    {
      CurrentNext(events, i, n, id);
      ModulesNext(events, n, s, id);
      if i < n {
        CurrentLoads(events, i, n, id);
      }
    }
  }

  lemma CurrentLoads(events: seq<Event>, i: nat, n: nat, id: nat)
    requires i < n <= |events| && Current(events, i, n, id)
    ensures Loaded(events, n, id)
  {
  }

  /** A loaded module stands from one load. */
  lemma OneCurrent(events: seq<Event>, i: nat, j: nat, n: nat, id: nat)
    requires i < n <= |events| && j < n && Current(events, i, n, id) && Current(events, j, n, id)
    ensures i == j
  {
    hide Accepts, Unloads;
  }

  lemma LoadedInIff(events: seq<Event>, n: nat, s: ProfilerState, id: nat, d: nat)
    requires n <= |events| && Map(events, n, s)
    ensures LoadedIn(events, n, id, d) <==> id in s.modules && s.modules[id].appDomain == d
  {
    hide Current;
    if id in s.modules {
      var i :| 0 <= i < n && Current(events, i, n, id);
      assert InDomain(events, i, s.modules[id].appDomain);
    }
  }

  // ---- the AppDomains that have had their hook

  /** Someone has been there before event n: a compilation that got the hook, or the loader. */
  predicate Hooked(events: seq<Event>, n: nat, d: nat)
    requires n <= |events|
  {
    exists j :: 0 <= j < n && (Qualifies(events, j, d) || LoadsLoader(events, j, d))
  }

  ghost predicate Hooks(events: seq<Event>, n: nat, s: ProfilerState)
    requires n <= |events|
  {
    forall d :: d in s.firstJit <==> Hooked(events, n, d)
  }

  lemma HookedNext(events: seq<Event>, n: nat, d: nat)
    requires n < |events|
    ensures Hooked(events, n + 1, d) == (Hooked(events, n, d) || Qualifies(events, n, d) || LoadsLoader(events, n, d))
  {
    hide Qualifies, LoadsLoader;
  }

  lemma FirstJitNext(events: seq<Event>, n: nat, s: ProfilerState, d: nat)
    requires n < |events| && Flags(events, n, s) && Map(events, n, s)
    ensures d in Step(s, events[n]).0.firstJit
            <==> d in s.firstJit || Qualifies(events, n, d) || LoadsLoader(events, n, d)
  {
    hide CorlibSeen, RequestRejit, NotifyParameters, Drain, Flags, Attached, Map, LoadedIn;
    FlagsMean(events, n, s);
    if events[n].JITCompilationStarted? {
      LoadedInIff(events, n, s, events[n].jit.moduleId, d);
    }
  }

  lemma HooksNext(events: seq<Event>, n: nat, s: ProfilerState)
    requires n < |events| && Flags(events, n, s) && Map(events, n, s) && Hooks(events, n, s)
    ensures Hooks(events, n + 1, Step(s, events[n]).0)
  {
    hide Step, Flags, Map, Hooked, Qualifies, LoadsLoader;
    forall d: nat ensures d in Step(s, events[n]).0.firstJit <==> Hooked(events, n + 1, d) {
      HookedNext(events, n, d);
      FirstJitNext(events, n, s, d);
    }
  }

  // ---- the methods the handler has

  /** A load with this target has happened, and the module is still there. */
  predicate Wanted(events: seq<Event>, n: nat, id: nat, def: nat)
    requires n <= |events|
  {
    exists i :: 0 <= i < n && Targets(events, i, id, def) && Stays(events, i, n, id)
  }

  predicate Asked(events: seq<Event>, n: nat, id: nat, def: nat)
    requires n <= |events|
  {
    exists i :: 0 <= i < n && Asks(events, i, id, def) && Stays(events, i, n, id)
  }

  predicate Has(s: ProfilerState, id: nat, def: nat) {
    s.handler.Some? && id in s.handler.value.modules && def in s.handler.value.modules[id].methods
  }

  /** The handler knows the targets, and has an entry for these and for methods it was asked about. */
  ghost predicate Methods(events: seq<Event>, n: nat, s: ProfilerState)
    requires n <= |events|
  {
    s.handler.Some? ==>
      forall id: nat, def: nat ::
        && (Known(s, id, def) <==> Wanted(events, n, id, def))
        && (Has(s, id, def) <==> Wanted(events, n, id, def) || Asked(events, n, id, def))
  }

  lemma StaysNext(events: seq<Event>, i: nat, n: nat, id: nat)
    requires i <= n < |events|
    ensures Stays(events, i, n + 1, id) == (Stays(events, i, n, id) && (i == n || !Unloads(events, n, id)))
  {
    hide Unloads;
  }

  lemma WantedNext(events: seq<Event>, n: nat, id: nat, def: nat)
    requires n < |events|
    ensures Wanted(events, n + 1, id, def)
            == (Targets(events, n, id, def) || (Wanted(events, n, id, def) && !Unloads(events, n, id)))
  {
    hide Targets, Stays, Unloads;
    StaysNext(events, n, n, id);
    StaysEmpty(events, n, id);
    if Wanted(events, n + 1, id, def) {
      var i :| 0 <= i < n + 1 && Targets(events, i, id, def) && Stays(events, i, n + 1, id);
      StaysNext(events, i, n, id);
    }
    if Wanted(events, n, id, def) {
      var i :| 0 <= i < n && Targets(events, i, id, def) && Stays(events, i, n, id);
      StaysNext(events, i, n, id);
    }
  }

  lemma StaysEmpty(events: seq<Event>, n: nat, id: nat)
    requires n <= |events|
    ensures Stays(events, n, n, id)
  {
  }

  lemma AskedNext(events: seq<Event>, n: nat, id: nat, def: nat)
    requires n < |events|
    ensures Asked(events, n + 1, id, def)
            == (Asks(events, n, id, def) || (Asked(events, n, id, def) && !Unloads(events, n, id)))
  {
    hide Asks, Stays, Unloads;
    StaysNext(events, n, n, id);
    StaysEmpty(events, n, id);
    if Asked(events, n + 1, id, def) {
      var i :| 0 <= i < n + 1 && Asks(events, i, id, def) && Stays(events, i, n + 1, id);
      StaysNext(events, i, n, id);
    }
    if Asked(events, n, id, def) {
      var i :| 0 <= i < n && Asks(events, i, id, def) && Stays(events, i, n, id);
      StaysNext(events, i, n, id);
    }
  }

  /** Targets enter the handler. */
  lemma HasAfterLoad(s: ProfilerState, id: nat, load: LoadInfo, i: nat, def: nat)
    requires ReachesHandler(s, load)
    ensures Has(LoadStep(s, id, load), i, def) <==> Has(s, i, def) || (i == id && TargetAmong(load.targets, def))
  {
    hide LoadStep;
    HandlerAfterLoad(s, id, load);
  }

  lemma LoadMethods(events: seq<Event>, n: nat, s: ProfilerState, id: nat, def: nat)
    requires n < |events| && Flags(events, n, s) && events[n].ModuleLoadFinished?
    ensures var t := Step(s, events[n]).0;
            && (Known(t, id, def) <==> Known(s, id, def) || Targets(events, n, id, def))
            && (Has(t, id, def) <==> Has(s, id, def) || Targets(events, n, id, def))
  {
    hide Accepts, Known, Has, Flags, LoadStep, ReachesHandler;
    var load, own := events[n].load, events[n].id;
    StoresIff(events, n, s);
    AcceptsOwn(events, n, id);
    if ReachesHandler(s, load) {
      KnownAfterLoad(s, own, load, id, def);
      HasAfterLoad(s, own, load, id, def);
    } else {
      LoadLeavesHandler(s, own, load);
      SameMethods(s, LoadStep(s, own, load), id, def);
    }
  }

  lemma LoadLeavesHandler(s: ProfilerState, id: nat, load: LoadInfo)
    requires !ReachesHandler(s, load)
    ensures LoadStep(s, id, load).handler == s.handler
  {
  }

  lemma SameMethods(s: ProfilerState, t: ProfilerState, id: nat, def: nat)
    requires s.handler == t.handler
    ensures Known(t, id, def) == Known(s, id, def) && Has(t, id, def) == Has(s, id, def)
  {
  }

  /** The handler only has methods of loaded modules. */
  predicate HandlerLoaded(s: ProfilerState) {
    s.handler.Some? ==> forall id :: id in s.handler.value.modules ==> id in s.modules
  }

  lemma OtherMethods(events: seq<Event>, n: nat, s: ProfilerState, id: nat, def: nat)
    requires n < |events| && Flags(events, n, s) && Map(events, n, s) && HandlerLoaded(s)
    requires !events[n].ModuleLoadFinished? && events[n] != Shutdown
    ensures var t := Step(s, events[n]).0;
            && (Known(t, id, def) <==> Known(s, id, def) && !Unloads(events, n, id))
            && (Has(t, id, def) <==>
                 Asks(events, n, id, def) || (Has(s, id, def) && !Unloads(events, n, id)))
  {
    hide Flags, Map, Loaded, Attached;
    FlagsMean(events, n, s);
    AttachedNext(events, n);
    assert id in s.modules <==> Loaded(events, n, id) by { MapMeans(events, n, s, id); }
  }

  lemma MapMeans(events: seq<Event>, n: nat, s: ProfilerState, id: nat)
    requires n <= |events| && Map(events, n, s)
    ensures id in s.modules <==> Loaded(events, n, id)
  {
  }

  lemma MethodsNext(events: seq<Event>, n: nat, s: ProfilerState)
    requires n < |events| && Flags(events, n, s) && Map(events, n, s) && HandlerLoaded(s) && Methods(events, n, s)
    ensures Methods(events, n + 1, Step(s, events[n]).0)
  {
    hide Step, Flags, Map, HandlerLoaded, Wanted, Asked, Known, Has, Targets, Asks, Unloads;
    var t, m := Step(s, events[n]).0, n + 1;
    HandlerNext(s, events[n]);
    if t.handler.Some? {
      forall id: nat, def: nat
        ensures Known(t, id, def) <==> Wanted(events, m, id, def)
        ensures Has(t, id, def) <==> Wanted(events, m, id, def) || Asked(events, m, id, def)
      {
        WantedNext(events, n, id, def);
        AskedNext(events, n, id, def);
        if events[n].ModuleLoadFinished? {
          LoadMethods(events, n, s, id, def);
          LoadsOnly(events, n, id, def);
        } else {
          OtherMethods(events, n, s, id, def);
          OthersOnly(events, n, id, def);
        }
      }
    }
  }

  lemma LoadsOnly(events: seq<Event>, n: nat, id: nat, def: nat)
    requires n < |events| && events[n].ModuleLoadFinished?
    ensures !Unloads(events, n, id) && !Asks(events, n, id, def)
  {
  }

  lemma OthersOnly(events: seq<Event>, n: nat, id: nat, def: nat)
    requires n < |events| && !events[n].ModuleLoadFinished?
    ensures !Targets(events, n, id, def)
  {
  }

  lemma HandlerNext(s: ProfilerState, e: Event)
    ensures Step(s, e).0.handler.Some? ==> s.handler.Some? && e != Shutdown
  {
    hide RequestRejit, NotifyParameters, Drain;
  }

  lemma HandlerLoadedNext(s: ProfilerState, e: Event)
    requires HandlerLoaded(s)
    ensures HandlerLoaded(Step(s, e).0)
  {
    hide AddTargets, Drain;
    if e.ModuleLoadFinished? {
      if ReachesHandler(s, e.load) {
        hide LoadStep;
        HandlerAfterLoad(s, e.id, e.load);
      } else {
        LoadLeavesHandler(s, e.id, e.load);
      }
    }
  }

  // ---- what the handler holds for a method

  /** Target k of load i is t, and the last that names its method. */
  predicate LastEntry(events: seq<Event>, i: nat, k: nat, n: nat, id: nat, t: Target)
    requires i < n <= |events|
  {
    && Accepts(events, i, id) && Stays(events, i, n, id)
    && IsLastTarget(events[i].load.targets, k, t)
    && forall j :: i < j < n ==> !Targets(events, j, id, t.def)
  }

  predicate IsLastTarget(ts: seq<Target>, k: nat, t: Target) {
    k < |ts| && ts[k] == t && forall m :: k < m < |ts| ==> ts[m].def != t.def
  }

  /** The handler's entry has what the target says. */
  predicate Holds(s: ProfilerState, id: nat, t: Target) {
    && s.handler.Some? && id in s.handler.value.modules && t.def in s.handler.value.modules[id].methods
    && s.handler.value.modules[id].methods[t.def].info == Some(t.info)
    && s.handler.value.modules[id].methods[t.def].replacement == Some(t.replacement)
  }

  ghost predicate Entries(events: seq<Event>, n: nat, s: ProfilerState)
    requires n <= |events|
  {
    s.handler.Some? ==>
      forall i: nat, k: nat, id: nat, t ::
        i < n && LastEntry(events, i, k, n, id, t) ==> Holds(s, id, t)
  }

  /** Entering targets one after another leaves what the last one for each method says, and the rest alone. */
  lemma {:induction false} AddTargetsHolds(ms: Modules, id: nat, metadata: Metadata, ts: seq<Target>, k: nat, t: Target)
    requires IsLastTarget(ts, k, t)
    ensures var r := AddTargets(ms, id, metadata, ts);
            && id in r && t.def in r[id].methods
            && r[id].methods[t.def].info == Some(t.info) && r[id].methods[t.def].replacement == Some(t.replacement)
    decreases |ts|
  {
    if k < |ts| - 1 {
      AddTargetsHolds(ms, id, metadata, ts[..|ts| - 1], k, t);
    }
  }

  lemma LoadHolds(s: ProfilerState, id: nat, load: LoadInfo, k: nat, t: Target)
    requires ReachesHandler(s, load) && IsLastTarget(load.targets, k, t)
    ensures Holds(LoadStep(s, id, load), id, t)
  {
    hide AddTargets;
    AddTargetsHolds(s.handler.value.modules, id, Metadata(s.created, load.appDomain), load.targets, k, t);
  }

  lemma LoadLeavesEntry(s: ProfilerState, own: nat, load: LoadInfo, id: nat, t: Target)
    requires ReachesHandler(s, load) && Holds(s, id, t) && !(own == id && TargetAmong(load.targets, t.def))
    ensures Holds(LoadStep(s, own, load), id, t)
  {
    hide LoadStep, AddTargets;
    HandlerAfterLoad(s, own, load);
  }

  lemma OtherLeavesEntry(events: seq<Event>, n: nat, s: ProfilerState, id: nat, t: Target)
    requires n < |events| && Flags(events, n, s) && Holds(s, id, t)
    requires !events[n].ModuleLoadFinished? && events[n] != Shutdown && !Unloads(events, n, id)
    ensures Holds(Step(s, events[n]).0, id, t)
  {
    hide Flags, Attached, Drain;
    FlagsMean(events, n, s);
  }

  lemma LastEntryNext(events: seq<Event>, i: nat, k: nat, n: nat, id: nat, t: Target)
    requires i <= n < |events| && LastEntry(events, i, k, n + 1, id, t)
    ensures i < n ==> LastEntry(events, i, k, n, id, t) && !Unloads(events, n, id) && !Targets(events, n, id, t.def)
    ensures i == n ==> Accepts(events, n, id) && events[n].ModuleLoadFinished?
                       && IsLastTarget(events[n].load.targets, k, t)
  {
    hide Accepts, Unloads, Targets;
    if !events[n].ModuleLoadFinished? {
      OnlyLoadsAccept(events, n, id);
    }
  }

  lemma EntryNext(events: seq<Event>, n: nat, s: ProfilerState, i: nat, k: nat, id: nat, t: Target)
    requires n < |events| && Flags(events, n, s) && Entries(events, n, s) && Step(s, events[n]).0.handler.Some?
    requires i <= n && LastEntry(events, i, k, n + 1, id, t)
    ensures Holds(Step(s, events[n]).0, id, t)
  {
    hide Step, Flags, Accepts, Unloads, LastEntry, Holds, ReachesHandler, IsLastTarget;
    LastEntryNext(events, i, k, n, id, t);
    HandlerNext(s, events[n]);
    if events[n].ModuleLoadFinished? {
      var own, load := events[n].id, events[n].load;
      StoresIff(events, n, s);
      AcceptsOwn(events, n, id);
      StepLoads(s, events[n]);
      if i == n {
        LoadHolds(s, id, load, k, t);
      } else if ReachesHandler(s, load) {
        LoadLeavesEntry(s, own, load, id, t);
      } else {
        LoadLeavesHandler(s, own, load);
        SameEntry(s, LoadStep(s, own, load), id, t);
      }
    } else {
      OnlyLoadsAccept(events, n, id);
      OtherLeavesEntry(events, n, s, id, t);
    }
  }

  lemma StepLoads(s: ProfilerState, e: Event)
    requires e.ModuleLoadFinished?
    ensures Step(s, e).0 == LoadStep(s, e.id, e.load)
  {
  }

  lemma SameEntry(s: ProfilerState, t: ProfilerState, id: nat, target: Target)
    requires s.handler == t.handler && Holds(s, id, target)
    ensures Holds(t, id, target)
  {
  }

  lemma EntriesNext(events: seq<Event>, n: nat, s: ProfilerState)
    requires n < |events| && Flags(events, n, s) && Entries(events, n, s)
    ensures Entries(events, n + 1, Step(s, events[n]).0)
  {
    hide Step, Flags, LastEntry, Holds;
    var next, m := Step(s, events[n]).0, n + 1;
    if next.handler.Some? {
      forall i: nat, k: nat, id: nat, t | i < m && LastEntry(events, i, k, m, id, t) ensures Holds(next, id, t) {
        EntryNext(events, n, s, i, k, id, t);
      }
    }
  }

  // ---- the AppDomains with the managed profiler

  /** Event i is the unload of a module of AppDomain d, which counts as the end of the managed profiler there. */
  predicate Clears(events: seq<Event>, i: nat, d: nat)
    requires i < |events|
  {
    events[i].ModuleUnloadStarted? && Attached(events, i) && LoadedIn(events, i, events[i].id, d)
  }

  /** The managed profiler was loaded into AppDomain d, and no module of d has been unloaded since. */
  predicate Managed(events: seq<Event>, n: nat, d: nat)
    requires n <= |events|
  {
    exists i :: 0 <= i < n && Brings(events, i, d) && forall j :: i < j < n ==> !Clears(events, j, d)
  }

  predicate Brings(events: seq<Event>, i: nat, d: nat)
    requires i < |events|
  {
    events[i] == ManagedAssemblyLoaded(d) && Attached(events, i)
  }

  ghost predicate ManagedAre(events: seq<Event>, n: nat, s: ProfilerState)
    requires n <= |events|
  {
    forall d :: d in s.managed <==> Managed(events, n, d)
  }

  lemma ManagedNext(events: seq<Event>, n: nat, d: nat)
    requires n < |events|
    ensures Managed(events, n + 1, d) == (Brings(events, n, d) || (Managed(events, n, d) && !Clears(events, n, d)))
  {
    hide LoadedIn, Attached;
    if Managed(events, n + 1, d) && !Brings(events, n, d) {
      var i :| 0 <= i < n + 1 && Brings(events, i, d) && forall j :: i < j < n + 1 ==> !Clears(events, j, d);
      assert i < n;
    }
    if Managed(events, n, d) && !Clears(events, n, d) {
      var i :| 0 <= i < n && Brings(events, i, d) && forall j :: i < j < n ==> !Clears(events, j, d);
      assert forall j :: i < j < n + 1 ==> !Clears(events, j, d);
    }
  }

  lemma ManagedStep(events: seq<Event>, n: nat, s: ProfilerState, d: nat)
    requires n < |events| && Flags(events, n, s) && Map(events, n, s)
    ensures d in Step(s, events[n]).0.managed
            <==> Brings(events, n, d) || (d in s.managed && !Clears(events, n, d))
  {
    hide CorlibSeen, RequestRejit, NotifyParameters, Drain, Flags, Attached, Map, LoadedIn;
    FlagsMean(events, n, s);
    if events[n].ModuleUnloadStarted? {
      LoadedInIff(events, n, s, events[n].id, d);
    }
  }

  lemma ManagedAreNext(events: seq<Event>, n: nat, s: ProfilerState)
    requires n < |events| && Flags(events, n, s) && Map(events, n, s) && ManagedAre(events, n, s)
    ensures ManagedAre(events, n + 1, Step(s, events[n]).0)
  {
    hide Step, Flags, Map, Managed, Brings, Clears;
    var m := n + 1;
    forall d: nat ensures d in Step(s, events[n]).0.managed <==> Managed(events, m, d) {
      ManagedNext(events, n, d);
      ManagedStep(events, n, s, d);
    }
  }

  // ---- the batches pushed

  /** Event i is a load of a module with targets. */
  predicate LoadsTargets(events: seq<Event>, i: nat)
    requires i < |events|
  {
    events[i].ModuleLoadFinished? && Accepts(events, i, events[i].id) && events[i].load.targets != []
  }

  /** The loads with targets among the first n events, in order. */
  function Batches(events: seq<Event>, n: nat): seq<nat>
    requires n <= |events|
  {
    if n == 0 then [] else Batches(events, n - 1) + if LoadsTargets(events, n - 1) then [n - 1] else []
  }

  /** The item asks for the targets of load i, one by one, in that module; their number is cast to 32 bits. */
  predicate BatchIs(events: seq<Event>, i: nat, item: RejitItem)
    requires i < |events|
  {
    && events[i].ModuleLoadFinished?
    && var ts := events[i].load.targets;
       && |item.modules| == |item.methods| == |ts|
       && -0x8000_0000 <= item.length < 0x8000_0000 && (item.length - |ts|) % 0x1_0000_0000 == 0
       && forall k :: 0 <= k < |ts| ==> item.modules[k] == events[i].id && item.methods[k] == ts[k].def
  }

  /** One item for every load with targets, in order. */
  predicate Pushed(events: seq<Event>, n: nat, pushed: seq<RejitItem>)
    requires n <= |events|
  {
    var b := Batches(events, n);
    |pushed| == |b| && forall k :: 0 <= k < |b| ==> b[k] < n && BatchIs(events, b[k], pushed[k])
  }

  lemma PushedNext(events: seq<Event>, n: nat, s: ProfilerState, h: History)
    requires n < |events| && Flags(events, n, s) && Pushed(events, n, h.pushed)
    ensures Pushed(events, n + 1, Track(h, s, events[n]).pushed)
  {
    hide Flags, Accepts, Step, Stores, Pairs, Without, ReachesHandler, BatchOf, BatchIs, MethodsOf;
    var e := events[n];
    if e.ModuleLoadFinished? {
      BatchOfIs(events, n);
      StoresIff(events, n, s);
      assert ReachesHandler(s, e.load) == (Stores(s, e.load) && s.handler.Some?) by { ReachesIs(s, e.load); }
    }
  }

  lemma BatchOfIs(events: seq<Event>, i: nat)
    requires i < |events| && events[i].ModuleLoadFinished?
    ensures BatchIs(events, i, BatchOf(events[i].id, MethodsOf(events[i].load.targets)))
  {
  }

  lemma ReachesIs(s: ProfilerState, load: LoadInfo)
    ensures ReachesHandler(s, load) == (Stores(s, load) && s.handler.Some?)
  {
  }

  predicate Increasing(b: seq<nat>) {
    forall j, k :: 0 <= j < k < |b| ==> b[j] < b[k]
  }

  /** The loads with targets are all in the list, and in order. */
  lemma {:induction false} BatchesAre(events: seq<Event>, n: nat)
    requires n <= |events|
    ensures forall i: nat :: i in Batches(events, n) <==> i < n && LoadsTargets(events, i)
    ensures Increasing(Batches(events, n))
  {
    hide LoadsTargets;
    if n > 0 {
      BatchesAre(events, n - 1);
      var b := Batches(events, n - 1);
      forall k | 0 <= k < |b| ensures b[k] < n - 1 {
        assert b[k] in b;
      }
      var c := Batches(events, n);
      assert c == b || c == b + [n - 1];
    }
  }

  // ---- the methods enqueued

  /** The method is a target of the load its module stands from. */
  predicate LastTargets(events: seq<Event>, n: nat, id: nat, def: nat)
    requires n <= |events|
  {
    exists i :: 0 <= i < n && Current(events, i, n, id) && Targets(events, i, id, def)
  }

  ghost predicate Enqueued(events: seq<Event>, n: nat, enqueued: set<(nat, nat)>)
    requires n <= |events|
  {
    forall id: nat, def: nat :: (id, def) in enqueued <==> Running(events, n) && LastTargets(events, n, id, def)
  }

  lemma LastTargetsNext(events: seq<Event>, n: nat, id: nat, def: nat)
    requires n < |events|
    ensures LastTargets(events, n + 1, id, def)
            == (Targets(events, n, id, def)
                || (LastTargets(events, n, id, def) && !Unloads(events, n, id) && !Accepts(events, n, id)))
  {
    hide Current, Accepts, Unloads;
    CurrentNext(events, n, n, id);
    if LastTargets(events, n + 1, id, def) {
      var i :| 0 <= i < n + 1 && Current(events, i, n + 1, id) && Targets(events, i, id, def);
      CurrentNext(events, i, n, id);
    }
    if LastTargets(events, n, id, def) {
      var i :| 0 <= i < n && Current(events, i, n, id) && Targets(events, i, id, def);
      CurrentNext(events, i, n, id);
    }
  }

  lemma TrackEnqueued(events: seq<Event>, n: nat, s: ProfilerState, h: History, id: nat, def: nat)
    requires n < |events| && Flags(events, n, s) && Map(events, n, s) && Enqueued(events, n, h.enqueued)
    ensures (id, def) in Track(h, s, events[n]).enqueued
            <==> events[n] != Shutdown
                 && (((id, def) in h.enqueued && !Unloads(events, n, id) && !Accepts(events, n, id))
                     || (Targets(events, n, id, def) && Running(events, n)))
  {
    hide Flags, Map, Enqueued, Step, Stores, ReachesHandler, Pairs, CorlibSeen, Attached, Looks, PassedOver;
    FlagsMean(events, n, s);
    var e := events[n];
    if e.ModuleLoadFinished? {
      StoresIff(events, n, s);
      ReachesIs(s, e.load);
      PairsAre(e.id, e.load.targets, id, def);
      AcceptsOwn(events, n, id);
    } else {
      OnlyLoadsAccept(events, n, id);
      if e.ModuleUnloadStarted? {
        MapMeans(events, n, s, e.id);
        if (id, def) in h.enqueued {
          EnqueuedLoaded(events, n, h.enqueued, id, def);
        }
      }
    }
  }

  lemma EnqueuedLoaded(events: seq<Event>, n: nat, enqueued: set<(nat, nat)>, id: nat, def: nat)
    requires n <= |events| && Enqueued(events, n, enqueued) && (id, def) in enqueued
    ensures Loaded(events, n, id)
  {
    hide Current;
  }

  lemma EnqueuedNext(events: seq<Event>, n: nat, s: ProfilerState, h: History)
    requires n < |events| && Flags(events, n, s) && Map(events, n, s) && Enqueued(events, n, h.enqueued)
    ensures Enqueued(events, n + 1, Track(h, s, events[n]).enqueued)
  {
    hide Flags, Map, Track, Targets, LastTargets, Unloads, Accepts, Running;
    var next, m := Track(h, s, events[n]).enqueued, n + 1;
    AttachedNext(events, n);
    forall id: nat, def: nat ensures (id, def) in next <==> Running(events, m) && LastTargets(events, m, id, def) {
      TrackEnqueued(events, n, s, h, id, def);
      LastTargetsNext(events, n, id, def);
    }
  }

  // ---- all of it

  ghost predicate Matches(events: seq<Event>, n: nat, s: ProfilerState, h: History)
    requires n <= |events|
  {
    && Flags(events, n, s) && Map(events, n, s) && Hooks(events, n, s) && Methods(events, n, s) && HandlerLoaded(s)
    && Entries(events, n, s) && ManagedAre(events, n, s)
    && Pushed(events, n, h.pushed) && Enqueued(events, n, h.enqueued)
  }

  lemma InitialMatches(events: seq<Event>)
    ensures Matches(events, 0, INITIAL, History({}, [], [], []))
  {
  }

  /** In every run the state is what the events say. */
  lemma {:induction false} RunMatches(events: seq<Event>, n: nat)
    requires n <= |events|
    ensures Matches(events, n, Run(events[..n]).0, Run(events[..n]).1)
  {
    hide Run, Step, Track, Flags, Map, Hooks, Methods, HandlerLoaded, Entries, ManagedAre, Pushed, Enqueued;
    if n == 0 {
      assert events[..0] == [];
      InitialMatches(events);
      NothingHappened();
    } else {
      RunMatches(events, n - 1);
      RunNext(events, n - 1);
      var (s, h) := Run(events[..n - 1]);
      var e := events[n - 1];
      FlagsNext(events, n - 1, s);
      MapNext(events, n - 1, s);
      HooksNext(events, n - 1, s);
      MethodsNext(events, n - 1, s);
      HandlerLoadedNext(s, e);
      ManagedAreNext(events, n - 1, s);
      EntriesNext(events, n - 1, s);
      PushedNext(events, n - 1, s, h);
      EnqueuedNext(events, n - 1, s, h);
    }
  }

  lemma NothingHappened()
    ensures Run([]) == (INITIAL, History({}, [], [], []))
  {
  }

  // ---- what the callbacks answer

  /** In every run, event n gives AppDomain d its hook exactly when it is the first that may, the loader included. */
  lemma HookIff(events: seq<Event>, n: nat, d: nat)
    requires n < |events|
    ensures Step(Run(events[..n]).0, events[n]).1 == StartupHook(d)
            <==> Qualifies(events, n, d) && !Hooked(events, n, d)
  {
    hide Run, Flags, Map, Hooked, LoadedIn, Attached, Drain, NotifyParameters, LoadStep, Methods, Pushed, Enqueued;
    RunMatches(events, n);
    var s := Run(events[..n]).0;
    FlagsMean(events, n, s);
    if events[n].JITCompilationStarted? {
      LoadedInIff(events, n, s, events[n].jit.moduleId, d);
    }
  }

  /**
   In every run, a method may be inlined, as far as the attached profiler is concerned, exactly unless it is a target
   of a load of its module or its parameters have been asked for, and the module has not been unloaded since; the
   runtime is left alone when the profiler is not attached.
   */
  lemma InlineIff(events: seq<Event>, n: nat)
    requires n < |events| && events[n].JITInlining?
    ensures var e := events[n];
            Step(Run(events[..n]).0, e).1
            == if !Attached(events, n) then Silent
               else ShouldInline(!e.infoOk || !(Wanted(events, n, e.callee, e.calleeMethod)
                                                || Asked(events, n, e.callee, e.calleeMethod)))
  {
    hide Run, Flags, Map, Hooks, Wanted, Asked, Attached, Running, Known, Pushed, Enqueued;
    RunMatches(events, n);
    AttachedNext(events, n);
    var s, e := Run(events[..n]).0, events[n];
    FlagsMean(events, n, s);
    assert s.handler.Some? ==>
        (Has(s, e.callee, e.calleeMethod)
         <==> Wanted(events, n, e.callee, e.calleeMethod) || Asked(events, n, e.callee, e.calleeMethod));
  }

  /**
   In every run, the rewrite callback runs exactly for methods that are targets of a load of their module, which is
   still there, and once function control is given.
   */
  lemma RewriteIff(events: seq<Event>, n: nat)
    requires n < |events| && events[n].GetReJITParameters?
    ensures var e := events[n];
            Step(Run(events[..n]).0, e).1.RewriteCallback?
            <==> Attached(events, n) && Loaded(events, n, e.id) && Wanted(events, n, e.id, e.def)
                 && e.control.Some? && e.def != 0x0600_0000 && e.id != 0
  {
    hide Run, Flags, Map, Hooks, Wanted, Asked, Attached, Running, Known, Has, Pushed, Enqueued, Step, Loaded;
    RunMatches(events, n);
    AttachedNext(events, n);
    var s, e := Run(events[..n]).0, events[n];
    FlagsMean(events, n, s);
    MapMeans(events, n, s, e.id);
    RewrittenIffKnown(events[..n], e.id, e.def, e.control);
  }

  /** The function control the runtime hands over is what the handler keeps for the method. */
  lemma ControlKept(events: seq<Event>, n: nat)
    requires n < |events| && events[n].GetReJITParameters? && Attached(events, n) && Loaded(events, n, events[n].id)
    ensures var e := events[n];
            var s := Step(Run(events[..n]).0, e).0;
            Has(s, e.id, e.def) && s.handler.value.modules[e.id].methods[e.def].control == e.control
  {
    hide Run, Flags, Map, Hooks, Methods, Entries, Attached, Running, Pushed, Enqueued, Loaded;
    RunMatches(events, n);
    AttachedNext(events, n);
    FlagsMean(events, n, Run(events[..n]).0);
    MapMeans(events, n, Run(events[..n]).0, events[n].id);
  }

  /**
   In every run, what the rewriting of a method is given: the function information and the replacement of the last
   target that named the method.
   */
  lemma RewrittenAsTargeted(events: seq<Event>, n: nat, i: nat, k: nat, id: nat, t: Target)
    requires i < n <= |events| && Running(events, n) && LastEntry(events, i, k, n, id, t)
    ensures Holds(Run(events[..n]).0, id, t)
  {
    hide Run, Flags, Map, Hooks, Methods, HandlerLoaded, ManagedAre, Pushed, Enqueued, LastEntry, Holds, Running;
    RunMatches(events, n);
    FlagsMean(events, n, Run(events[..n]).0);
  }

  /** In every run, which AppDomains are taken to have the managed profiler. */
  lemma ManagedIff(events: seq<Event>, d: nat)
    ensures d in Run(events).0.managed <==> Managed(events, |events|, d)
  {
    hide Run, Flags, Map, Hooks, Methods, HandlerLoaded, Managed, Pushed, Enqueued;
    assert events[..|events|] == events;
    RunMatches(events, |events|);
  }

  /** In every run, which modules are loaded, and where. */
  lemma LoadedIff(events: seq<Event>, id: nat, d: nat)
    ensures id in Run(events).0.modules && Run(events).0.modules[id].appDomain == d
            <==> LoadedIn(events, |events|, id, d)
  {
    hide Run, Flags, Map, Hooks, Methods, HandlerLoaded, Entries, ManagedAre, Pushed, Enqueued;
    assert events[..|events|] == events;
    RunMatches(events, |events|);
    LoadedInIff(events, |events|, Run(events).0, id, d);
  }

  // ---- what is requested

  /** The item asks for the method. */
  predicate AsksFor(item: RejitItem, id: nat, def: nat) {
    exists k :: 0 <= k < |item.modules| && k < |item.methods| && item.modules[k] == id && item.methods[k] == def
  }

  predicate Requests(items: seq<RejitItem>, id: nat, def: nat) {
    exists j :: 0 <= j < |items| && AsksFor(items[j], id, def)
  }

  lemma AsksForIff(events: seq<Event>, i: nat, item: RejitItem, id: nat, def: nat)
    requires i < |events| && BatchIs(events, i, item)
    ensures AsksFor(item, id, def) <==> events[i].id == id && TargetAmong(events[i].load.targets, def)
  {
    var ts := events[i].load.targets;
    if TargetAmong(ts, def) {
      var k :| 0 <= k < |ts| && ts[k].def == def;
      assert item.modules[k] == events[i].id && item.methods[k] == def;
    }
    if AsksFor(item, id, def) {
      var k :| 0 <= k < |ts| && item.modules[k] == id && item.methods[k] == def;
      assert ts[k].def == def;
    }
  }

  /** A method was a target of a load before event n. */
  predicate EverTarget(events: seq<Event>, n: nat, id: nat, def: nat)
    requires n <= |events|
  {
    exists i :: 0 <= i < n && Targets(events, i, id, def)
  }

  lemma PushedIff(events: seq<Event>, n: nat, pushed: seq<RejitItem>, id: nat, def: nat)
    requires n <= |events| && Pushed(events, n, pushed)
    ensures Requests(pushed, id, def) <==> EverTarget(events, n, id, def)
  {
    hide AsksFor, BatchIs, Batches, Accepts;
    BatchesAre(events, n);
    var b := Batches(events, n);
    if Requests(pushed, id, def) {
      var k :| 0 <= k < |pushed| && AsksFor(pushed[k], id, def);
      assert b[k] in b && BatchIs(events, b[k], pushed[k]);
      AsksForIff(events, b[k], pushed[k], id, def);
      assert Targets(events, b[k], id, def) by { LoadTargets(events, b[k], id, def); }
    }
    if EverTarget(events, n, id, def) {
      var i :| 0 <= i < n && Targets(events, i, id, def);
      TargetLoads(events, i, id, def);
      assert i in b;
      var k :| 0 <= k < |b| && b[k] == i;
      assert BatchIs(events, b[k], pushed[k]);
      AsksForIff(events, i, pushed[k], id, def);
    }
  }

  lemma LoadTargets(events: seq<Event>, i: nat, id: nat, def: nat)
    requires i < |events| && LoadsTargets(events, i) && events[i].id == id && TargetAmong(events[i].load.targets, def)
    ensures Targets(events, i, id, def)
  {
    hide Looks, PassedOver;
  }

  lemma TargetLoads(events: seq<Event>, i: nat, id: nat, def: nat)
    requires i < |events| && Targets(events, i, id, def)
    ensures LoadsTargets(events, i) && events[i].id == id && TargetAmong(events[i].load.targets, def)
  {
    hide PassedOver;
  }

  /**
   Once the profiler has shut down, one request has been made for every load with targets, in order, for exactly its
   targets in that module.
   */
  lemma RequestsAreTheBatches(events: seq<Event>)
    requires HonestRun(events)
    ensures Pushed(events, |events|, Run(events + [Shutdown]).1.delivered)
  {
    hide Run, Pushed, Flags, Map, Hooks, Methods, HandlerLoaded, Enqueued;
    assert events[..|events|] == events;
    RunMatches(events, |events|);
    AllDeliveredAtShutdown(events);
  }

  /** So exactly the methods that were ever targets have been requested. */
  lemma RequestedIff(events: seq<Event>, id: nat, def: nat)
    requires HonestRun(events)
    ensures Requests(Run(events + [Shutdown]).1.delivered, id, def) <==> EverTarget(events, |events|, id, def)
  {
    hide Run, Pushed, Requests, EverTarget;
    RequestsAreTheBatches(events);
    PushedIff(events, |events|, Run(events + [Shutdown]).1.delivered, id, def);
  }

  /** A method is enqueued exactly while it is a target of the load its module stands from. */
  lemma EnqueuedIff(events: seq<Event>, id: nat, def: nat)
    ensures (id, def) in Run(events).1.enqueued
            <==> Running(events, |events|) && LastTargets(events, |events|, id, def)
  {
    hide Run, Flags, Map, Hooks, Methods, HandlerLoaded, Pushed, LastTargets, Running;
    assert events[..|events|] == events;
    RunMatches(events, |events|);
  }

  /** Every method that was enqueued at some time has been requested when the profiler has shut down. */
  lemma EnqueuedIsRequested(events: seq<Event>, n: nat, id: nat, def: nat)
    requires HonestRun(events) && n <= |events| && (id, def) in Run(events[..n]).1.enqueued
    ensures Requests(Run(events + [Shutdown]).1.delivered, id, def)
  {
    hide Run, Flags, Map, Hooks, Methods, HandlerLoaded, Pushed, Running, Targets, Current, Requests;
    RunMatches(events, n);
    RequestedIff(events, id, def);
    assert LastTargets(events, n, id, def);
  }
}
