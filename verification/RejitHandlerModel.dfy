/** The ReJIT handler's objects: modules, the request queue and the handler, updated in place. */
module RejitHandlerModel {
  import opened RejitState

  class RejitHandlerModule {
    const moduleId: nat
    var metadata: Option<Metadata>
    /** The method handlers by token. */
    var methods: map<nat, MethodState>

    constructor (moduleId: nat)
      ensures this.moduleId == moduleId && View() == NEW_MODULE
    {
      this.moduleId, metadata, methods := moduleId, None, map[];
    }

    ghost function View(): ModuleState
      reads this
    {
      ModuleState(metadata, methods)
    }

    method SetModuleMetadata(m: Metadata)
      modifies this`metadata
      ensures View() == old(View()).(metadata := Some(m))
    {
      metadata := Some(m);
    }

    method GetOrAddMethod(def: nat) returns (m: MethodState)
      modifies this`methods
      ensures def in methods && m == methods[def] == MethodOf(old(View()), def)
      ensures View() == old(View()).(methods := old(methods)[def := m])
    {
      if def in methods {
        return methods[def];
      }
      m := NEW_METHOD;
      methods := methods[def := m];
    }

    /** What the setters of a method handler do. */
    method UpdateMethod(def: nat, m: MethodState)
      requires def in methods
      modifies this`methods
      ensures View() == old(View()).(methods := old(methods)[def := m])
    {
      methods := methods[def := m];
    }

    /** Stores the metadata and what is known of a method. */
    method EnterMethod(m: Metadata, t: Target)
      modifies this
      ensures View() == Updated(old(View()), m, t.def,
                                MethodOf(old(View()), t.def).(info := Some(t.info), replacement := Some(t.replacement)))
    {
      SetModuleMetadata(m);
      var x := GetOrAddMethod(t.def);
      UpdateMethod(t.def, x.(info := Some(t.info), replacement := Some(t.replacement)));
    }

    /** Stores the metadata and a method's function control. */
    method EnterControl(m: Metadata, def: nat, control: Option<nat>) returns (x: MethodState)
      modifies this
      ensures x == MethodOf(old(View()), def).(control := control)
      ensures View() == Updated(old(View()), m, def, x)
    {
      SetModuleMetadata(m);
      x := GetOrAddMethod(def);
      x := x.(control := control);
      UpdateMethod(def, x);
    }

    method ContainsMethod(def: nat) returns (yes: bool)
      ensures yes == (def in View().methods)
    {
      yes := def in methods;
    }
  }

  /** A first-in-first-out queue; taking from it waits until there is something to take. */
  class UniqueBlockingQueue {
    var items: seq<RejitItem>

    constructor ()
      ensures items == []
    {
      items := [];
    }

    method Push(item: RejitItem)
      modifies this
      ensures items == old(items) + [item]
    {
      items := items + [item];
    }

    method Pop() returns (item: RejitItem)
      requires items != []
      modifies this
      ensures [item] + items == old(items)
    {
      item := items[0];
      items := items[1..];
    }
  }

  class RejitHandler {
    var modules: map<nat, RejitHandlerModule>
    const queue: UniqueBlockingQueue
    /** The worker thread has left its loop. */
    var stopped: bool

    /** Modules are filed under their own ids. */
    ghost predicate Valid()
      reads this`modules, modules.Values
    {
      forall id :: id in modules ==> modules[id].moduleId == id
    }

    ghost function ModulesView(): Modules
      reads this`modules, modules.Values
    {
      map id | id in modules :: modules[id].View()
    }

    ghost function View(): HandlerState
      reads this, modules.Values, queue
    {
      HandlerState(ModulesView(), queue.items, stopped)
    }

    constructor ()
      ensures Valid() && fresh(queue) && View() == HandlerState(map[], [], false) && modules == map[]
    {
      modules, stopped := map[], false;
      queue := new UniqueBlockingQueue();
    }

    method GetOrAddModule(id: nat) returns (m: RejitHandlerModule)
      requires Valid()
      modifies this`modules
      ensures Valid() && id in modules && m == modules[id]
      ensures id in old(modules) ==> modules == old(modules)
      ensures id !in old(modules) ==> fresh(m) && modules == old(modules)[id := m]
      ensures m.View() == ModuleOf(old(ModulesView()), id)
      ensures View() == old(View()).(modules := old(ModulesView())[id := m.View()])
    {
      if id in modules {
        return modules[id];
      }
      m := new RejitHandlerModule(id);
      modules := modules[id := m];
    }

    method RemoveModule(id: nat)
      requires Valid()
      modifies this`modules
      ensures Valid() && View() == old(View()).(modules := old(ModulesView()) - {id})
      ensures modules.Values <= old(modules.Values)
    {
      modules := modules - {id};
    }

    /** The answer to an inlining question: does the handler have this method? */
    method HasMethod(id: nat, def: nat) returns (yes: bool)
      requires Valid()
      ensures yes == (id in ModulesView() && def in ModulesView()[id].methods)
    {
      yes := false;
      if id in modules {
        yes := modules[id].ContainsMethod(def);
      }
    }

    /** A method to be rewritten is entered with its function information and replacement. */
    method EnterTarget(id: nat, metadata: Metadata, t: Target)
      requires Valid()
      modifies this`modules, modules.Values
      ensures Valid() && View() == old(View()).(modules := AddTarget(old(ModulesView()), id, metadata, t))
      ensures forall m :: m in modules.Values ==> m in old(modules.Values) || fresh(m)
    {
      ghost var before := ModulesView();
      var m := GetOrAddModule(id);
      ghost var added, state := ModulesView(), m.View();
      m.EnterMethod(metadata, t);
      ModuleChanged(id, added);
      Overwritten(before, id, state, m.View());
    }

    /** Only the module under `id` has changed. */
    lemma ModuleChanged(id: nat, before: Modules)
      requires id in modules && before.Keys == modules.Keys
      requires forall k :: k in modules && k != id ==> modules[k].View() == before[k]
      ensures ModulesView() == before[id := modules[id].View()]
    {
    }

    /** A module's targets are entered one after another, and enqueued as one batch. */
    method RequestRejit(id: nat, metadata: Metadata, ts: seq<Target>)
      requires Valid()
      modifies this`modules, modules.Values, queue
      ensures Valid() && View() == RejitState.RequestRejit(old(View()), id, metadata, ts)
      ensures forall m :: m in modules.Values ==> m in old(modules.Values) || fresh(m)
    {
      ghost var before := ModulesView();
      var ids, defs: seq<nat> := [], [];
      assert ts[..0] == [];
      for i := 0 to |ts|
        invariant Valid() && queue.items == old(queue.items) && stopped == old(stopped)
        invariant ModulesView() == AddTargets(before, id, metadata, ts[..i])
        invariant |ids| == i && (forall j :: 0 <= j < i ==> ids[j] == id) && defs == MethodsOf(ts[..i])
        invariant forall m :: m in modules.Values ==> m in old(modules.Values) || fresh(m)
      {
        EnterTarget(id, metadata, ts[i]);
        ids, defs := ids + [id], defs + [ts[i].def];
        assert ts[..i + 1][..i] == ts[..i];
      }
      assert ts[..|ts|] == ts;
      assert ids == BatchOf(id, defs).modules;
      if defs != [] {
        EnqueueForRejit(ids, defs);
      }
    }

    method EnqueueForRejit(ids: seq<nat>, defs: seq<nat>)
      requires |ids| == |defs|
      modifies queue
      ensures queue.items == old(queue.items) + [RejitItem(ToInt32(|defs|), ids, defs)]
    {
      queue.Push(RejitItem(ToInt32(|defs|), ids, defs));
    }

    /** One round of the worker: takes an item and requests it, or stops at an end marker. */
    method WorkerTakes() returns (requested: seq<RejitItem>)
      requires !stopped && queue.items != []
      modifies this`stopped, queue
      ensures queue.items == old(queue.items)[1..]
      ensures stopped == IsEnd(old(queue.items)[0])
      ensures requested == if stopped then [] else [old(queue.items)[0]]
    {
      ghost var items := queue.items;
      var item := queue.Pop();
      assert items[0] == item && items[1..] == queue.items;
      if IsEnd(item) {
        stopped := true;
        return [];
      }
      return [item];
    }

    /** The worker: takes items and requests them, until it meets an end marker. */
    method EnqueueThreadLoop() returns (requested: seq<RejitItem>)
      requires !stopped && exists i :: 0 <= i < |queue.items| && IsEnd(queue.items[i])
      modifies this`stopped, queue
      ensures stopped && (requested, queue.items) == Drain(old(queue.items))
    {
      requested := [];
      assert [] + Drain(queue.items).0 == Drain(queue.items).0;
      while !stopped
        invariant !stopped ==> exists i :: 0 <= i < |queue.items| && IsEnd(queue.items[i])
        invariant !stopped ==> requested + Drain(queue.items).0 == Drain(old(queue.items)).0
        invariant !stopped ==> Drain(queue.items).1 == Drain(old(queue.items)).1
        invariant stopped ==> (requested, queue.items) == Drain(old(queue.items))
        decreases |queue.items|
      {
        ghost var items, soFar := queue.items, requested;
        ghost var i :| 0 <= i < |items| && IsEnd(items[i]);
        var more := WorkerTakes();
        requested := requested + more;
        if stopped {
          assert soFar + [] == soFar;
        } else {
          assert IsEnd(queue.items[i - 1]);
          assert soFar + [items[0]] + Drain(queue.items).0 == soFar + ([items[0]] + Drain(queue.items).0);
        }
      }
    }

    /** Pushes the end marker, waits for the worker, and forgets the modules. */
    method Shutdown() returns (requested: seq<RejitItem>)
      requires Valid()
      modifies this, queue
      ensures Valid() && modules == map[] && stopped
      ensures requested == if old(stopped) then [] else Drain(old(queue.items) + [END_OF_QUEUE]).0
    {
      queue.Push(END_OF_QUEUE);
      requested := [];
      if !stopped {
        assert IsEnd(queue.items[|queue.items| - 1]);
        requested := EnqueueThreadLoop();
      }
      modules := map[];
    }

    lemma Overwritten(ms: Modules, id: nat, a: ModuleState, b: ModuleState)
      ensures ms[id := a][id := b] == ms[id := b]
    {
    }

    /** Stores what the runtime passes for a method. */
    method EnterParameters(id: nat, def: nat, control: Option<nat>, metadata: Metadata)
      returns (m: RejitHandlerModule, x: MethodState)
      requires Valid()
      modifies this`modules, modules.Values
      ensures Valid() && View() == NotifyParameters(old(View()), id, def, control, metadata)
      ensures id in modules && m == modules[id] && m.metadata == Some(metadata)
      ensures def in m.methods && x == m.methods[def]
      ensures forall y :: y in modules.Values ==> y in old(modules.Values) || fresh(y)
    {
      ghost var before := ModulesView();
      m := GetOrAddModule(id);
      ghost var added, state := ModulesView(), m.View();
      x := m.EnterControl(metadata, def, control);
      ModuleChanged(id, added);
      Overwritten(before, id, state, m.View());
    }

    /**
     The runtime asks for the parameters of a rewriting: the handler remembers metadata and function control, and
     says whether it has everything the rewrite callback needs.
     */
    method NotifyReJITParameters(id: nat, def: nat, control: Option<nat>, metadata: Metadata) returns (rewrite: bool)
      requires Valid()
      modifies this`modules, modules.Values
      ensures Valid() && View() == NotifyParameters(old(View()), id, def, control, metadata)
      ensures rewrite == ReadyToRewrite(View().modules[id].methods[def], id, def)
      ensures forall m :: m in modules.Values ==> m in old(modules.Values) || fresh(m)
    {
      hide NotifyParameters;
      var m, x := EnterParameters(id, def, control, metadata);
      assert ModulesView()[id] == m.View();
      if def == METHOD_DEF_NIL || x.control.None? || x.info.None? || x.replacement.None?
         || m.moduleId == 0 || m.metadata.None?
      {
        return false;
      }
      return true;
    }
  }
}
