/**
 A small machine for instruction lists with exception clauses. What ordinary instructions do to the
 environment (arguments, the original locals, the heap) and to the evaluation stack is an arbitrary oracle;
 control transfer, exception handling and the locals the rewriting adds are explicit. Exceptions are handled in
 one pass: clauses are searched in table order, and finally handlers met on the way run before the search goes on.
 */
module ILMachine {
  import opened OpCodes
  import opened ILCode
  import opened ExceptionTable

  /** Values: null, an opaque object, or a reference to a local carrying the local's value. */
  datatype Val = Null | Obj(id: int) | Ref(to: Val)

  /** An opaque token for everything the machine does not look at. */
  type Env = int

  /** An instruction without its branch target, short forms taken as long ones: what an oracle may depend on. */
  datatype Key = Key(opcode: nat, bits: nat)

  datatype Effect =
    | Next(env: Env, stack: seq<Val>)
    | Goto(env: Env, stack: seq<Val>, arm: nat)
    | Raise(env: Env, exc: Val)

  datatype Oracle = Oracle(exec: (Key, Env, seq<Val>) -> Effect, catches: (nat, Env, Val) -> bool)

  /** `localBase` is the first local the machine keeps itself; lower ones belong to the environment. */
  datatype Program = Program(code: Code, clauses: seq<Clause<int>>, localBase: nat, isVoid: bool)

  /** What a finally handler goes on with when it ends. */
  datatype Pending =
    | Unwind(exc: Val, at: nat, next: nat)
    | LeaveTo(target: nat, at: nat, next: nat)

  /** A handler that is running. */
  datatype Ctx = InCatch(clause: nat, exc: Val) | InFinally(clause: nat, pending: Pending)

  /** One oracle execution. */
  datatype Event = Event(key: Key, env: Env, stack: seq<Val>)

  datatype Outcome = Returned(env: Env, stack: seq<Val>) | Thrown(env: Env, exc: Val)

  datatype State =
    | Running(pc: nat, stack: seq<Val>, env: Env, slots: seq<Val>, ctx: seq<Ctx>, trace: seq<Event>)
    | Done(outcome: Outcome, history: seq<Event>)
    | Stuck

  const ENDFAULT_FLAG: nat := 4

  predicate WellFormed(p: Program) {
    Exportable(p.code) && forall i :: 0 <= i < |p.clauses| ==> InList(p.clauses[i], |p.code|)
  }

  predicate InTry(c: Clause<int>, pc: int) {
    c.tryBegin <= pc < c.tryEnd
  }

  predicate InHandler(c: Clause<int>, pc: int) {
    c.handlerBegin <= pc <= c.handlerEnd
  }

  predicate IsFinally(c: Clause<int>) {
    c.flags == CLAUSE_FINALLY
  }

  predicate IsFault(c: Clause<int>) {
    c.flags == ENDFAULT_FLAG
  }

  /** The first clause from `from` on that takes an exception raised at pc (the table's length if none does). */
  function FindHandler(p: Program, o: Oracle, env: Env, exc: Val, pc: nat, from: nat): (i: nat)
    requires from <= |p.clauses|
    ensures from <= i <= |p.clauses|
    decreases |p.clauses| - from
  {
    if from == |p.clauses| then from
    else if InTry(p.clauses[from], pc)
            && (IsFinally(p.clauses[from]) || IsFault(p.clauses[from]) || o.catches(from, env, exc)) then from
    else FindHandler(p, o, env, exc, pc, from + 1)
  }

  /** The first finally clause from `from` on that control leaves on its way from pc to target. */
  function FindFinally(p: Program, pc: nat, target: nat, from: nat): (i: nat)
    requires from <= |p.clauses|
    ensures from <= i <= |p.clauses|
    decreases |p.clauses| - from
  {
    if from == |p.clauses| then from
    else if IsFinally(p.clauses[from]) && InTry(p.clauses[from], pc) && !InTry(p.clauses[from], target) then from
    else FindFinally(p, pc, target, from + 1)
  }

  /** The running handlers that are still running once control is at pc. */
  function Trim(p: Program, ctx: seq<Ctx>, pc: nat): seq<Ctx> {
    if ctx == [] then []
    else
      var top := ctx[|ctx| - 1];
      if top.clause < |p.clauses| && InHandler(p.clauses[top.clause], pc) then ctx
      else Trim(p, ctx[..|ctx| - 1], pc)
  }

  /** Control enters the handler of clause i. */
  function Enter(p: Program, s: State, i: nat, stack: seq<Val>, c: Ctx): State
    requires s.Running? && WellFormed(p) && i < |p.clauses|
  {
    var h: nat := p.clauses[i].handlerBegin;
    s.(pc := h, stack := stack, ctx := Trim(p, s.ctx, h) + [c])
  }

  /** An exception raised at pc, searched for from clause `from` on. */
  function RaiseAt(p: Program, o: Oracle, s: State, pc: nat, exc: Val, from: nat): State
    requires s.Running? && WellFormed(p) && from <= |p.clauses|
  {
    var i := FindHandler(p, o, s.env, exc, pc, from);
    if i == |p.clauses| then Done(Thrown(s.env, exc), s.trace)
    else if IsFinally(p.clauses[i]) || IsFault(p.clauses[i]) then
      Enter(p, s, i, [], InFinally(i, Unwind(exc, pc, i + 1)))
    else Enter(p, s, i, [exc], InCatch(i, exc))
  }

  function LeaveFrom(p: Program, s: State, pc: nat, target: nat, from: nat): State
    requires s.Running? && WellFormed(p) && from <= |p.clauses|
  {
    var i := FindFinally(p, pc, target, from);
    if i == |p.clauses| then s.(pc := target, stack := [], ctx := Trim(p, s.ctx, target))
    else Enter(p, s, i, [], InFinally(i, LeaveTo(target, pc, i + 1)))
  }

  function Resume(p: Program, o: Oracle, s: State, pending: Pending): State
    requires s.Running? && WellFormed(p)
  {
    if pending.next > |p.clauses| then Stuck
    else match pending
      case Unwind(exc, at, next) => RaiseAt(p, o, s, at, exc, next)
      case LeaveTo(target, at, next) => LeaveFrom(p, s, at, target, next)
  }

  // ---- instructions

  /** The local an instruction stores, loads or takes the address of. */
  datatype LocalUse = NoLocal | Store(index: nat) | Load(index: nat) | Address(index: nat)

  function LocalUseOf(i: Instr): LocalUse {
    if !i.operand.Bits? then NoLocal
    else if STLOC_0 <= i.opcode <= STLOC_0 + 3 then Store(i.opcode - STLOC_0)
    else if i.opcode == STLOC_S || i.opcode == STLOC then Store(i.operand.w)
    else if LDLOC_0 <= i.opcode <= LDLOC_0 + 3 then Load(i.opcode - LDLOC_0)
    else if i.opcode == LDLOC_S || i.opcode == LDLOC then Load(i.operand.w)
    else if i.opcode == LDLOCA_S || i.opcode == LDLOCA then Address(i.operand.w)
    else NoLocal
  }

  /** The argument an instruction loads; arguments are numbered from the instance on, if there is one. */
  datatype ArgumentUse = NoArgument | Argument(index: nat)

  function ArgumentUseOf(i: Instr): ArgumentUse {
    if !i.operand.Bits? then NoArgument
    else if LDARG_0 <= i.opcode <= LDARG_0 + 3 then Argument(i.opcode - LDARG_0)
    else if i.opcode == LDARG_S || i.opcode == LDARG then Argument(i.operand.w)
    else NoArgument
  }

  /** The instruction works on a local the machine keeps. */
  predicate UsesSlot(p: Program, i: Instr) {
    !LocalUseOf(i).NoLocal? && LocalUseOf(i).index >= p.localBase
  }

  function KeyOf(i: Instr): Key {
    Key(if IsShort(i.opcode) then LongForm(i.opcode) else i.opcode,
        if i.operand.Bits? then i.operand.w else 0)
  }

  /** Where arm `arm` of the branching instruction at pc goes (a switch has one arm per argument); else the end. */
  function ArmTarget(p: Program, pc: nat, arm: nat): (t: nat)
    requires WellFormed(p) && pc < |p.code|
    ensures t <= |p.code|
  {
    assert OperandOk(p.code, pc);
    var i := p.code[pc];
    if i.opcode == SWITCH then
      if arm < i.operand.w && pc + 1 + arm < |p.code| && p.code[pc + 1 + arm].operand.Target? then
        assert OperandOk(p.code, pc + 1 + arm);
        p.code[pc + 1 + arm].operand.to
      else |p.code|
    else if i.operand.Target? then i.operand.to
    else |p.code|
  }

  function FallThrough(p: Program, pc: nat): nat
    requires WellFormed(p) && pc < |p.code|
  {
    assert OperandOk(p.code, pc);
    if p.code[pc].opcode == SWITCH then pc + 1 + p.code[pc].operand.w else pc + 1
  }

  function SlotStep(p: Program, s: State, use: LocalUse): State
    requires s.Running? && !use.NoLocal? && use.index >= p.localBase
  {
    var k := use.index - p.localBase;
    if k >= |s.slots| then Stuck
    else match use
      case Store(_) =>
        if s.stack == [] then Stuck
        else s.(pc := s.pc + 1, stack := s.stack[..|s.stack| - 1], slots := s.slots[k := s.stack[|s.stack| - 1]])
      case Load(_) => s.(pc := s.pc + 1, stack := s.stack + [s.slots[k]])
      case Address(_) => s.(pc := s.pc + 1, stack := s.stack + [Ref(s.slots[k])])
  }

  /** An instruction the oracle executes. */
  function OracleStep(p: Program, o: Oracle, s: State): State
    requires s.Running? && WellFormed(p) && s.pc < |p.code|
  {
    var key := KeyOf(p.code[s.pc]);
    var t := s.(trace := s.trace + [Event(key, s.env, s.stack)]);
    match o.exec(key, s.env, s.stack)
    case Next(env, stack) => t.(pc := FallThrough(p, s.pc), env := env, stack := stack)
    case Goto(env, stack, arm) =>
      if ArmTarget(p, s.pc, arm) == |p.code| then Stuck
      else t.(pc := ArmTarget(p, s.pc, arm), env := env, stack := stack)
    case Raise(env, exc) => RaiseAt(p, o, t.(env := env), s.pc, exc, 0)
  }

  function Step(p: Program, o: Oracle, s: State): State
    requires s.Running? && WellFormed(p)
  {
    if s.pc >= |p.code| then Stuck
    else
      assert OperandOk(p.code, s.pc);
      var i := p.code[s.pc];
      if UsesSlot(p, i) then SlotStep(p, s, LocalUseOf(i))
      else if i.opcode == LDNULL then s.(pc := s.pc + 1, stack := s.stack + [Null])
      else if i.opcode == RET then
        if p.isVoid then Done(Returned(s.env, []), s.trace)
        else if s.stack == [] then Stuck
        else Done(Returned(s.env, [s.stack[|s.stack| - 1]]), s.trace)
      else if i.opcode == BR || i.opcode == BR_S then s.(pc := i.operand.to)
      else if i.opcode == LEAVE || i.opcode == LEAVE_S then LeaveFrom(p, s, s.pc, i.operand.to, 0)
      else if i.opcode == RETHROW then
        if s.ctx == [] || !s.ctx[|s.ctx| - 1].InCatch? then Stuck
        else RaiseAt(p, o, s, s.pc, s.ctx[|s.ctx| - 1].exc, 0)
      else if i.opcode == ENDFINALLY then
        if s.ctx == [] || !s.ctx[|s.ctx| - 1].InFinally? then Stuck
        else Resume(p, o, s.(ctx := s.ctx[..|s.ctx| - 1]), s.ctx[|s.ctx| - 1].pending)
      else if i.opcode == SWITCH_ARG then Stuck
      else OracleStep(p, o, s)
  }

  /** n steps; a finished run stays as it is. */
  function Steps(p: Program, o: Oracle, s: State, n: nat): State
    requires WellFormed(p)
    decreases n
  {
    if n == 0 || !s.Running? then s else Steps(p, o, Step(p, o, s), n - 1)
  }

  lemma {:induction false} StepsCompose(p: Program, o: Oracle, s: State, m: nat, n: nat)
    requires WellFormed(p)
    ensures Steps(p, o, s, m + n) == Steps(p, o, Steps(p, o, s, m), n)
    decreases m
  {
    hide Step;
    if m > 0 && s.Running? {
      StepsCompose(p, o, Step(p, o, s), m - 1, n);
    }
  }
}
