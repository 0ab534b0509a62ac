/** The profiler's callbacks, updating its maps and sets under the lock: each is one step of the ReJIT machine. */
module CorProfilerModel {
  import opened RejitState
  import opened RejitHandlerModel

  class CorProfiler {
    var attached: bool
    var rejitHandler: RejitHandler?
    var moduleIdToInfoMap: map<nat, Metadata>
    var managedProfilerLoadedAppDomains: set<nat>
    var firstJitCompilationAppDomains: set<nat>
    var corlibModuleLoaded: bool
    /** How many metadata objects have been created. */
    var created: nat

    /** The objects behind the state. */
    ghost function Repr(): set<object>
      reads this`rejitHandler, rejitHandler
    {
      if rejitHandler == null then {}
      else {rejitHandler, rejitHandler.queue} + (set m | m in rejitHandler.modules.Values)
    }

    ghost predicate Valid()
      reads this`rejitHandler, rejitHandler, Repr()
    {
      rejitHandler != null ==> rejitHandler.Valid()
    }

    ghost function View(): ProfilerState
      reads this, rejitHandler, Repr()
    {
      ProfilerState(attached, HandlerView(), moduleIdToInfoMap, managedProfilerLoadedAppDomains,
                    firstJitCompilationAppDomains, corlibModuleLoaded, created)
    }

    ghost function HandlerView(): Option<HandlerState>
      reads this`rejitHandler, rejitHandler, Repr()
    {
      if rejitHandler == null then None else Some(rejitHandler.View())
    }

    /** Initialised in CallTarget mode. */
    constructor ()
      ensures Valid() && View() == INITIAL && fresh(Repr())
    {
      attached, moduleIdToInfoMap := true, map[];
      managedProfilerLoadedAppDomains, firstJitCompilationAppDomains := {}, {};
      corlibModuleLoaded, created := false, 0;
      rejitHandler := new RejitHandler();
    }

    method ModuleLoadFinished(id: nat, load: LoadInfo)
      requires Valid()
      modifies this, Repr()
      ensures Valid() && View() == Step(old(View()), Event.ModuleLoadFinished(id, load)).0
      ensures forall o :: o in Repr() ==> o in old(Repr()) || fresh(o)
    {
      hide RejitState.RequestRejit;
      if !load.ok {
        return;
      }
      if !attached {
        return;
      }
      if !load.valid {
        return;
      }
      if !corlibModuleLoaded && load.isCorlib {
        corlibModuleLoaded := true;
        return;
      }
      if load.isLoader {
        firstJitCompilationAppDomains := firstJitCompilationAppDomains + {load.appDomain};
        return;
      }
      if !load.wanted {
        return;
      }
      var metadata := Metadata(created, load.appDomain);
      created := created + 1;
      moduleIdToInfoMap := moduleIdToInfoMap[id := metadata];
      if rejitHandler != null {
        rejitHandler.RequestRejit(id, metadata, load.targets);
      }
    }

    method ModuleUnloadStarted(id: nat)
      requires Valid()
      modifies this, Repr()
      ensures Valid() && View() == Step(old(View()), Event.ModuleUnloadStarted(id)).0
      ensures Repr() <= old(Repr())
    {
      if !attached {
        return;
      }
      if id in moduleIdToInfoMap {
        ForgetModule(id);
        RemoveFromHandler(id);
      }
    }

    /** The maps and sets forget a module. */
    method ForgetModule(id: nat)
      requires id in moduleIdToInfoMap
      modifies this`moduleIdToInfoMap, this`managedProfilerLoadedAppDomains
      ensures moduleIdToInfoMap == old(moduleIdToInfoMap) - {id}
      ensures managedProfilerLoadedAppDomains
              == old(managedProfilerLoadedAppDomains) - {old(moduleIdToInfoMap)[id].appDomain}
    {
      var metadata := moduleIdToInfoMap[id];
      if metadata.appDomain in managedProfilerLoadedAppDomains {
        managedProfilerLoadedAppDomains := managedProfilerLoadedAppDomains - {metadata.appDomain};
      }
      moduleIdToInfoMap := moduleIdToInfoMap - {id};
    }

    method RemoveFromHandler(id: nat)
      requires Valid()
      modifies Repr()
      ensures Valid() && Repr() <= old(Repr())
      ensures HandlerView()
              == if old(HandlerView()).None? then None
                 else Some(old(HandlerView()).value.(modules := old(HandlerView()).value.modules - {id}))
    {
      if rejitHandler != null {
        rejitHandler.RemoveModule(id);
      }
    }

    /** The part of an assembly load that matters here: the managed profiler, in the right version. */
    method ManagedAssemblyLoaded(appDomain: nat)
      requires Valid()
      modifies this`managedProfilerLoadedAppDomains
      ensures Valid() && View() == Step(old(View()), Event.ManagedAssemblyLoaded(appDomain)).0
    {
      if attached {
        managedProfilerLoadedAppDomains := managedProfilerLoadedAppDomains + {appDomain};
      }
    }

    /** The AppDomain that gets the startup hook, if one does. */
    method JITCompilationStarted(jit: JitInfo) returns (hook: Option<nat>)
      requires Valid()
      modifies this`firstJitCompilationAppDomains
      ensures Valid()
      ensures (View(), if hook.Some? then StartupHook(hook.value) else Silent)
              == Step(old(View()), Event.JITCompilationStarted(jit))
    {
      if !attached || !jit.safeToBlock {
        return None;
      }
      if !jit.infoOk {
        return None;
      }
      if jit.moduleId !in moduleIdToInfoMap {
        return None;
      }
      var metadata := moduleIdToInfoMap[jit.moduleId];
      var injected := metadata.appDomain in firstJitCompilationAppDomains;
      if injected {
        return None;
      }
      if !jit.callerValid {
        return None;
      }
      if jit.validCallsite && !injected {
        firstJitCompilationAppDomains := firstJitCompilationAppDomains + {metadata.appDomain};
        return Some(metadata.appDomain);
      }
      return None;
    }

    /** The answer given to the runtime; none if the profiler leaves the runtime's own answer alone. */
    method JITInlining(infoOk: bool, callee: nat, def: nat) returns (shouldInline: Option<bool>)
      requires Valid()
      ensures (View(), if shouldInline.Some? then ShouldInline(shouldInline.value) else Silent)
              == Step(View(), Event.JITInlining(infoOk, callee, def))
    {
      if !attached || rejitHandler == null {
        return None;
      }
      if !infoOk {
        return Some(true);
      }
      var has := rejitHandler.HasMethod(callee, def);
      if has {
        return Some(false);
      }
      return Some(true);
    }

    /** The metadata the rewrite callback is run with, if it is run. */
    method GetReJITParameters(id: nat, def: nat, control: Option<nat>) returns (rewrite: Option<Metadata>)
      requires Valid()
      modifies Repr()
      ensures Valid()
      ensures (View(), if rewrite.Some? then RewriteCallback(id, def, rewrite.value) else Silent)
              == Step(old(View()), Event.GetReJITParameters(id, def, control))
      ensures forall o :: o in Repr() ==> o in old(Repr()) || fresh(o)
    {
      if !attached {
        return None;
      }
      if id !in moduleIdToInfoMap {
        return None;
      }
      var metadata := moduleIdToInfoMap[id];
      if rejitHandler == null {
        return None;
      }
      hide NotifyParameters;
      var ready := rejitHandler.NotifyReJITParameters(id, def, control, metadata);
      if ready {
        return Some(metadata);
      }
      return None;
    }

    /** The worker thread gets to run one round, unless it waits or is gone. */
    method WorkerPops() returns (requested: Option<seq<RejitItem>>)
      requires Valid()
      modifies Repr()
      ensures Valid()
      ensures (View(), if requested.Some? then Requested(requested.value) else Silent)
              == Step(old(View()), Event.WorkerPops)
      ensures Repr() == old(Repr())
    {
      if rejitHandler == null || rejitHandler.stopped || rejitHandler.queue.items == [] {
        return None;
      }
      var items := rejitHandler.WorkerTakes();
      return if rejitHandler.stopped then None else Some(items);
    }

    method Shutdown() returns (requested: Option<seq<RejitItem>>)
      requires Valid()
      modifies this, Repr()
      ensures Valid()
      ensures (View(), if requested.Some? then Requested(requested.value) else Silent)
              == Step(old(View()), Event.Shutdown)
      ensures Repr() == {}
    {
      requested := None;
      if rejitHandler != null {
        var stopped := rejitHandler.stopped;
        var items := rejitHandler.Shutdown();
        if !stopped {
          requested := Some(items);
        }
        rejitHandler := null;
      }
      attached := false;
    }

    method ProfilerDetachSucceeded()
      requires Valid()
      modifies this`attached
      ensures Valid() && View() == Step(old(View()), DetachSucceeded).0
    {
      if !attached {
        return;
      }
      attached := false;
    }
  }
}
