/** Runs of injected straight-line code: what a block computes, and that the machine computes it. */
module StraightLine {
  import opened OpCodes
  import opened ILCode
  import opened ILMachine
  import opened CallTargetCode

  /** The part of a running state that straight-line code changes. */
  datatype Frame = Frame(env: Env, stack: seq<Val>, slots: seq<Val>, trace: seq<Event>)

  /** How one instruction, or a block, ends: normally, with an exception, or not defined. */
  datatype Ran = Through(f: Frame) | Failed(at: nat, f: Frame, exc: Val) | Wedged

  predicate IsControl(op: nat) {
    op in {RET, BR, BR_S, LEAVE, LEAVE_S, RETHROW, ENDFINALLY, SWITCH, SWITCH_ARG}
  }

  function RunOp(base: nat, o: Oracle, i: Instr, f: Frame): Ran {
    var use := LocalUseOf(i);
    if !use.NoLocal? && use.index >= base then
      var k := use.index - base;
      if k >= |f.slots| then Wedged
      else match use
        case Store(_) =>
          if f.stack == [] then Wedged
          else Through(f.(stack := f.stack[..|f.stack| - 1], slots := f.slots[k := f.stack[|f.stack| - 1]]))
        case Load(_) => Through(f.(stack := f.stack + [f.slots[k]]))
        case Address(_) => Through(f.(stack := f.stack + [Ref(f.slots[k])]))
    else if i.opcode == LDNULL then Through(f.(stack := f.stack + [Null]))
    else if IsControl(i.opcode) then Wedged
    else
      var key := KeyOf(i);
      var t := f.(trace := f.trace + [Event(key, f.env, f.stack)]);
      match o.exec(key, f.env, f.stack)
      case Next(env, stack) => Through(t.(env := env, stack := stack))
      case Raise(env, exc) => Failed(0, t.(env := env), exc)
      case Goto(_, _, _) => Wedged
  }

  /** The block from its k-th instruction on. */
  function RunOps(base: nat, o: Oracle, ops: seq<Op>, k: nat, f: Frame): Ran
    requires k <= |ops|
    decreases |ops| - k
  {
    if k == |ops| then Through(f)
    else
      match RunOp(base, o, ops[k].i, f)
      case Through(g) => RunOps(base, o, ops, k + 1, g)
      case Failed(_, g, exc) => Failed(k, g, exc)
      case Wedged => Wedged
  }

  function StateOf(f: Frame, pc: nat, ctx: seq<Ctx>): State {
    Running(pc, f.stack, f.env, f.slots, ctx, f.trace)
  }

  /** The instructions of a block sit at position `at` of a program. */
  predicate HoldsOps(p: Program, at: nat, ops: seq<Op>) {
    at + |ops| <= |p.code| && forall k :: 0 <= k < |ops| ==> p.code[at + k] == ops[k].i
  }

  lemma StepRunsOp(p: Program, o: Oracle, pc: nat, i: Instr, f: Frame, ctx: seq<Ctx>)
    requires WellFormed(p) && pc < |p.code| && p.code[pc] == i && !RunOp(p.localBase, o, i, f).Wedged?
    ensures match RunOp(p.localBase, o, i, f)
            case Through(g) => Step(p, o, StateOf(f, pc, ctx)) == StateOf(g, pc + 1, ctx)
            case Failed(_, g, exc) =>
              Step(p, o, StateOf(f, pc, ctx))
              == RaiseAt(p, o, StateOf(g.(stack := f.stack), pc, ctx), pc, exc, 0)
  {
    hide WellFormed, FindHandler;
    assert OperandOk(p.code, pc) by {
      assert Exportable(p.code) by { WellFormedCode(p); }
    }
  }

  lemma WellFormedCode(p: Program)
    requires WellFormed(p)
    ensures Exportable(p.code)
  {
  }

  /** Where an exception in a block leads; the raise depends on the position, not on the stack. */
  function RaisedIn(p: Program, o: Oracle, f: Frame, pc: nat, ctx: seq<Ctx>, exc: Val): State
    requires WellFormed(p)
  {
    RaiseAt(p, o, StateOf(f, pc, ctx), pc, exc, 0)
  }

  lemma RaiseIgnoresStack(p: Program, o: Oracle, f: Frame, stack: seq<Val>, pc: nat, ctx: seq<Ctx>, exc: Val)
    requires WellFormed(p)
    ensures RaisedIn(p, o, f.(stack := stack), pc, ctx, exc) == RaisedIn(p, o, f, pc, ctx, exc)
  {
  }

  /** The machine runs a block as RunOps says. */
  lemma {:induction false} StepsRunOps(p: Program, o: Oracle, at: nat, ops: seq<Op>, k: nat, f: Frame, ctx: seq<Ctx>)
    requires WellFormed(p) && HoldsOps(p, at, ops) && k <= |ops|
    ensures match RunOps(p.localBase, o, ops, k, f)
            case Through(g) => Steps(p, o, StateOf(f, at + k, ctx), |ops| - k) == StateOf(g, at + |ops|, ctx)
            case Failed(j, g, exc) =>
              && k <= j < |ops|
              && Steps(p, o, StateOf(f, at + k, ctx), j - k + 1) == RaisedIn(p, o, g, at + j, ctx, exc)
            case Wedged => true
    decreases |ops| - k
  {
    hide Step, RunOp, WellFormed, RaisedIn;
    if k < |ops| {
      var s := StateOf(f, at + k, ctx);
      assert p.code[at + k] == ops[k].i;
      match RunOp(p.localBase, o, ops[k].i, f) {
        case Through(g) =>
          StepRunsOp(p, o, at + k, ops[k].i, f, ctx);
          StepsRunOps(p, o, at, ops, k + 1, g, ctx);
          StepsUnfold(p, o, s, |ops| - k);
          match RunOps(p.localBase, o, ops, k + 1, g) {
            case Failed(j, h, exc) => StepsUnfold(p, o, s, j - k + 1);
            case _ =>
          }
        case Failed(_, g, exc) =>
          StepRaises(p, o, at + k, ops[k].i, f, ctx);
          StepsUnfold(p, o, s, 1);
        case Wedged =>
      }
    }
  }

  lemma StepRaises(p: Program, o: Oracle, pc: nat, i: Instr, f: Frame, ctx: seq<Ctx>)
    requires WellFormed(p) && pc < |p.code| && p.code[pc] == i && RunOp(p.localBase, o, i, f).Failed?
    ensures var r := RunOp(p.localBase, o, i, f);
            Step(p, o, StateOf(f, pc, ctx)) == RaisedIn(p, o, r.f, pc, ctx, r.exc)
  {
    hide Step, WellFormed, RunOp, RaiseAt;
    StepRunsOp(p, o, pc, i, f, ctx);
    var r := RunOp(p.localBase, o, i, f);
    RaiseIgnoresStack(p, o, r.f, f.stack, pc, ctx, r.exc);
  }

  lemma StepsUnfold(p: Program, o: Oracle, s: State, n: nat)
    requires WellFormed(p) && s.Running? && n > 0
    ensures Steps(p, o, s, n) == Steps(p, o, Step(p, o, s), n - 1)
  {
  }

  // ---- typed blocks

  /** The oracle treats an injected instruction as its signature says, for any callback behind it. */
  ghost predicate Typed(o: Oracle, op: Op) {
    forall env, stack: seq<Val> :: |stack| >= op.pops ==> TypedAt(o, op, env, stack)
  }

  predicate TypedAt(o: Oracle, op: Op, env: Env, stack: seq<Val>)
    requires |stack| >= op.pops
  {
    match o.exec(KeyOf(op.i), env, stack)
    case Next(_, after) =>
      |after| == |stack| - op.pops + op.pushes && after[..|stack| - op.pops] == stack[..|stack| - op.pops]
    case Raise(_, _) => true
    case Goto(_, _, _) => false
  }

  /** An instruction for the machine itself or a typed one for the oracle. */
  ghost predicate OpOk(base: nat, slotCount: nat, o: Oracle, op: Op) {
    var use := LocalUseOf(op.i);
    if !use.NoLocal? then
      use.index >= base && use.index - base < slotCount
      && op.pops == (if use.Store? then 1 else 0) && op.pushes == (if use.Store? then 0 else 1)
    else if op.i.opcode == LDNULL then op.pops == 0 && op.pushes == 1
    else !IsControl(op.i.opcode) && Typed(o, op)
  }

  /** The stack depth after the first k instructions of a block, entered with an empty stack (-1 on underflow). */
  function Depth(ops: seq<Op>, k: nat): int
    requires k <= |ops|
  {
    if k == 0 then 0
    else
      var d := Depth(ops, k - 1);
      if d < ops[k - 1].pops then -1 else d - ops[k - 1].pops + ops[k - 1].pushes
  }

  ghost predicate BlockOk(base: nat, slotCount: nat, o: Oracle, ops: seq<Op>) {
    && (forall k :: 0 <= k < |ops| ==> OpOk(base, slotCount, o, ops[k]))
    && (forall k :: 0 <= k <= |ops| ==> Depth(ops, k) >= 0)
  }

  lemma OpKeepsShape(base: nat, o: Oracle, op: Op, f: Frame)
    requires OpOk(base, |f.slots|, o, op) && |f.stack| >= op.pops
    ensures var r := RunOp(base, o, op.i, f);
            && !r.Wedged? && |r.f.slots| == |f.slots|
            && (r.Through? ==> |r.f.stack| == |f.stack| - op.pops + op.pushes)
            && (r.Failed? ==> r.f.slots == f.slots)
  {
    if LocalUseOf(op.i).NoLocal? && op.i.opcode != LDNULL {
      assert TypedAt(o, op, f.env, f.stack);
    }
  }

  /** A well-typed block never gets wedged and, when it runs through, leaves its final depth. */
  lemma {:induction false} BlockRuns(base: nat, o: Oracle, ops: seq<Op>, k: nat, f: Frame)
    requires BlockOk(base, |f.slots|, o, ops) && k <= |ops| && |f.stack| == Depth(ops, k)
    ensures var r := RunOps(base, o, ops, k, f);
            && !r.Wedged? && |r.f.slots| == |f.slots|
            && (r.Through? ==> |r.f.stack| == Depth(ops, |ops|))
    decreases |ops| - k
  {
    hide RunOp, OpOk;
    if k < |ops| {
      assert Depth(ops, k + 1) >= 0;
      OpKeepsShape(base, o, ops[k], f);
      var r := RunOp(base, o, ops[k].i, f);
      if r.Through? {
        BlockRuns(base, o, ops, k + 1, r.f);
      }
    }
  }
}
