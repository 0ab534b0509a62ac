/**
 The profiler's runtime state as a machine: module map, ReJIT handler, AppDomain sets and request queue, with one
 atomic step per callback. What the callbacks learn from the runtime is part of their events.
 */
module RejitState {

  datatype Option<+T> = None | Some(value: T)

  const METHOD_DEF_NIL: nat := 0x0600_0000
  const TWO_31: nat := 0x8000_0000
  const TWO_32: nat := 0x1_0000_0000

  /** A loaded module's metadata; the serial number stands for the identity of the allocated object. */
  datatype Metadata = Metadata(serial: nat, appDomain: nat)

  /** What is known of a method to be rewritten. */
  datatype MethodState = MethodState(control: Option<nat>, info: Option<nat>, replacement: Option<nat>)

  const NEW_METHOD := MethodState(None, None, None)

  datatype ModuleState = ModuleState(metadata: Option<Metadata>, methods: map<nat, MethodState>)

  const NEW_MODULE := ModuleState(None, map[])

  type Modules = map<nat, ModuleState>

  /** A queued request: a length that is cast to a 32-bit integer, and that many modules and methods. */
  datatype RejitItem = RejitItem(length: int, modules: seq<nat>, methods: seq<nat>)

  const END_OF_QUEUE := RejitItem(-1, [], [])

  predicate IsEnd(item: RejitItem) {
    item.length == -1
  }

  function ToInt32(n: nat): int {
    if n % TWO_32 >= TWO_31 then n % TWO_32 - TWO_32 else n % TWO_32
  }

  function BatchOf(moduleId: nat, methods: seq<nat>): RejitItem {
    RejitItem(ToInt32(|methods|), seq(|methods|, _ => moduleId), methods)
  }

  /** The handler; the worker has stopped once it has seen an end marker. */
  datatype HandlerState = HandlerState(modules: Modules, queue: seq<RejitItem>, stopped: bool)

  datatype ProfilerState = ProfilerState(
    attached: bool, handler: Option<HandlerState>, modules: map<nat, Metadata>,
    managed: set<nat>, firstJit: set<nat>, corlibLoaded: bool, created: nat)

  /** A method of a loaded module that an integration asks for. */
  datatype Target = Target(def: nat, info: nat, replacement: nat)

  /**
   What a module load learns from the runtime: success, valid module information, the two names that are treated
   specially, whether it passes the filters and its metadata can be read, and the methods to be rewritten.
   */
  datatype LoadInfo = LoadInfo(
    ok: bool, valid: bool, isCorlib: bool, isLoader: bool, wanted: bool, appDomain: nat, targets: seq<Target>)

  /** What a JIT compilation learns: whether it is safe to block, the module, and whether the caller can get a hook. */
  datatype JitInfo = JitInfo(safeToBlock: bool, infoOk: bool, moduleId: nat, callerValid: bool, validCallsite: bool)

  datatype Event =
    | ModuleLoadFinished(id: nat, load: LoadInfo)
    | ModuleUnloadStarted(id: nat)
    | ManagedAssemblyLoaded(appDomain: nat)
    | JITCompilationStarted(jit: JitInfo)
    | JITInlining(infoOk: bool, callee: nat, calleeMethod: nat)
    | GetReJITParameters(id: nat, def: nat, control: Option<nat>)
    | WorkerPops
    | Shutdown
    | DetachSucceeded

  datatype Output =
    | Silent
    | StartupHook(appDomain: nat)
    | ShouldInline(answer: bool)
    | RewriteCallback(id: nat, def: nat, metadata: Metadata)
    | Requested(items: seq<RejitItem>)

  // ---- the handler

  function ModuleOf(ms: Modules, id: nat): ModuleState {
    if id in ms then ms[id] else NEW_MODULE
  }

  function MethodOf(m: ModuleState, def: nat): MethodState {
    if def in m.methods then m.methods[def] else NEW_METHOD
  }

  /** A method of a module, created if it is new, after a change to it; the metadata is stored on the way. */
  function Updated(m: ModuleState, metadata: Metadata, def: nat, change: MethodState): ModuleState {
    ModuleState(Some(metadata), m.methods[def := change])
  }

  /** A target is entered with everything the rewriting will need but the function control. */
  function AddTarget(ms: Modules, id: nat, metadata: Metadata, t: Target): Modules {
    var m := ModuleOf(ms, id);
    ms[id := Updated(m, metadata, t.def, MethodOf(m, t.def).(info := Some(t.info), replacement := Some(t.replacement)))]
  }

  function AddTargets(ms: Modules, id: nat, metadata: Metadata, ts: seq<Target>): Modules
    decreases |ts|
  {
    if ts == [] then ms
    else AddTarget(AddTargets(ms, id, metadata, ts[..|ts| - 1]), id, metadata, ts[|ts| - 1])
  }

  function MethodsOf(ts: seq<Target>): (r: seq<nat>)
    ensures |r| == |ts|
  {
    seq(|ts|, i requires 0 <= i < |ts| => ts[i].def)
  }

  /** The handler after a module's targets have been entered and, if there are any, enqueued. */
  function RequestRejit(h: HandlerState, id: nat, metadata: Metadata, ts: seq<Target>): HandlerState {
    if ts == [] then h
    else h.(modules := AddTargets(h.modules, id, metadata, ts), queue := h.queue + [BatchOf(id, MethodsOf(ts))])
  }

  /** The handler remembers metadata and function control, and rewrites a method it has everything for. */
  function NotifyParameters(h: HandlerState, id: nat, def: nat, control: Option<nat>,
            metadata: Metadata): HandlerState {
    var m := ModuleOf(h.modules, id);
    h.(modules := h.modules[id := Updated(m, metadata, def, MethodOf(m, def).(control := control))])
  }

  predicate ReadyToRewrite(m: MethodState, id: nat, def: nat) {
    def != METHOD_DEF_NIL && m.control.Some? && m.info.Some? && m.replacement.Some? && id != 0
  }

  /** What the worker has requested when it stops, and what is left in the queue. */
  function Drain(queue: seq<RejitItem>): (r: (seq<RejitItem>, seq<RejitItem>))
    ensures |r.0| + |r.1| <= |queue|
  {
    if queue == [] then ([], [])
    else if IsEnd(queue[0]) then ([], queue[1..])
    else
      var rest := Drain(queue[1..]);
      ([queue[0]] + rest.0, rest.1)
  }

  // ---- one step

  function LoadStep(s: ProfilerState, id: nat, load: LoadInfo): ProfilerState
  {
    if !load.ok || !s.attached || !load.valid then s
    else if !s.corlibLoaded && load.isCorlib then s.(corlibLoaded := true)
    else if load.isLoader then s.(firstJit := s.firstJit + {load.appDomain})
    else if !load.wanted then s
    else
      var metadata := Metadata(s.created, load.appDomain);
      s.(modules := s.modules[id := metadata], created := s.created + 1,
         handler := if s.handler.Some? then Some(RequestRejit(s.handler.value, id, metadata, load.targets)) else None)
  }

  function UnloadStep(s: ProfilerState, id: nat): ProfilerState {
    if !s.attached || id !in s.modules then s
    else
      s.(managed := s.managed - {s.modules[id].appDomain}, modules := s.modules - {id},
         handler := if s.handler.Some? then Some(s.handler.value.(modules := s.handler.value.modules - {id})) else None)
  }

  function JitStep(s: ProfilerState, jit: JitInfo): (ProfilerState, Output) {
    if !s.attached || !jit.safeToBlock || !jit.infoOk || jit.moduleId !in s.modules then (s, Silent)
    else
      var d := s.modules[jit.moduleId].appDomain;
      if d in s.firstJit || !jit.callerValid || !jit.validCallsite then (s, Silent)
      else (s.(firstJit := s.firstJit + {d}), StartupHook(d))
  }

  function InlineOutput(s: ProfilerState, infoOk: bool, callee: nat, def: nat): Output {
    if !s.attached || s.handler.None? then Silent
    else if !infoOk then ShouldInline(true)
    else
      var ms := s.handler.value.modules;
      ShouldInline(!(callee in ms && def in ms[callee].methods))
  }

  function ParametersStep(s: ProfilerState, id: nat, def: nat, control: Option<nat>): (ProfilerState, Output) {
    if !s.attached || id !in s.modules || s.handler.None? then (s, Silent)
    else
      var h := NotifyParameters(s.handler.value, id, def, control, s.modules[id]);
      (s.(handler := Some(h)),
       if ReadyToRewrite(h.modules[id].methods[def], id, def) then RewriteCallback(id, def, s.modules[id])
       else Silent)
  }

  function WorkerStep(s: ProfilerState): (ProfilerState, Output) {
    if s.handler.None? || s.handler.value.stopped || s.handler.value.queue == [] then (s, Silent)
    else
      var h := s.handler.value;
      var item := h.queue[0];
      if IsEnd(item) then (s.(handler := Some(h.(queue := h.queue[1..], stopped := true))), Silent)
      else (s.(handler := Some(h.(queue := h.queue[1..]))), Requested([item]))
  }

  /** Shutting down pushes the end marker and waits for the worker, which drains the queue up to an end marker. */
  function ShutdownStep(s: ProfilerState): (ProfilerState, Output) {
    if s.handler.None? then (s.(attached := false), Silent)
    else
      var h := s.handler.value;
      (s.(attached := false, handler := None),
       if h.stopped then Silent else Requested(Drain(h.queue + [END_OF_QUEUE]).0))
  }

  function Step(s: ProfilerState, e: Event): (ProfilerState, Output) {
    match e
    case ModuleLoadFinished(id, load) => (LoadStep(s, id, load), Silent)
    case ModuleUnloadStarted(id) => (UnloadStep(s, id), Silent)
    case ManagedAssemblyLoaded(d) => (if s.attached then s.(managed := s.managed + {d}) else s, Silent)
    case JITCompilationStarted(jit) => JitStep(s, jit)
    case JITInlining(infoOk, callee, def) => (s, InlineOutput(s, infoOk, callee, def))
    case GetReJITParameters(id, def, control) => ParametersStep(s, id, def, control)
    case WorkerPops => WorkerStep(s)
    case Shutdown => ShutdownStep(s)
    case DetachSucceeded => (s.(attached := false), Silent)
  }

  /** The state after the profiler has been initialised in CallTarget mode. */
  const INITIAL := ProfilerState(true, Some(HandlerState(map[], [], false)), map[], {}, {}, false, 0)

  // ---- history

  /**
   What happened since the start: the methods enqueued since their module was last loaded (nothing after shutdown),
   the AppDomains that got a startup hook, and the requests pushed and delivered.
   */
  datatype History = History(enqueued: set<(nat, nat)>, hooks: seq<nat>, pushed: seq<RejitItem>,
            delivered: seq<RejitItem>)

  function Without(pairs: set<(nat, nat)>, id: nat): set<(nat, nat)> {
    set p | p in pairs && p.0 != id
  }

  function Pairs(id: nat, ts: seq<Target>): set<(nat, nat)> {
    set i | 0 <= i < |ts| :: (id, ts[i].def)
  }

  /** The load stores the module's metadata and analyses it. */
  predicate Stores(s: ProfilerState, load: LoadInfo) {
    load.ok && s.attached && load.valid && !(!s.corlibLoaded && load.isCorlib) && !load.isLoader && load.wanted
  }

  function Track(h: History, s: ProfilerState, e: Event): History {
    var out := Step(s, e).1;
    match e
    case ModuleLoadFinished(id, load) =>
      if Stores(s, load) && s.handler.Some? then
        h.(enqueued := Without(h.enqueued, id) + Pairs(id, load.targets),
           pushed := if load.targets == [] then h.pushed else h.pushed + [BatchOf(id, MethodsOf(load.targets))])
      else h
    case ModuleUnloadStarted(id) => if s.attached && id in s.modules then h.(enqueued := Without(h.enqueued, id)) else h
    case JITCompilationStarted(_) => if out.StartupHook? then h.(hooks := h.hooks + [out.appDomain]) else h
    case WorkerPops => if out.Requested? then h.(delivered := h.delivered + out.items) else h
    case Shutdown => h.(enqueued := {}, delivered := if out.Requested? then h.delivered + out.items else h.delivered)
    case _ => h
  }

  /** A run of the profiler, with its history. */
  function Run(events: seq<Event>): (ProfilerState, History)
    decreases |events|
  {
    if events == [] then (INITIAL, History({}, [], [], []))
    else
      var (s, h) := Run(events[..|events| - 1]);
      var e := events[|events| - 1];
      (Step(s, e).0, Track(h, s, e))
  }
}
