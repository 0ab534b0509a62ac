/** Widening short branches to long ones does not change what a program does. */
module MachineWidening {
  import opened OpCodes
  import opened ILCode
  import opened Relaxation
  import opened ExceptionTable
  import opened ILMachine

  /** The same program with some short branches widened. */
  ghost predicate WidenedTo(a: Program, b: Program) {
    WellFormed(a) && WellFormed(b) && Widens(a.code, b.code) && b == a.(code := b.code)
  }

  lemma {:induction false} SameHandler(a: Program, b: Program, o: Oracle, env: Env, exc: Val, pc: nat, from: nat)
    requires WidenedTo(a, b) && from <= |a.clauses|
    ensures FindHandler(a, o, env, exc, pc, from) == FindHandler(b, o, env, exc, pc, from)
    decreases |a.clauses| - from
  {
    hide WellFormed, Widens;
    if from < |a.clauses| {
      SameHandler(a, b, o, env, exc, pc, from + 1);
    }
  }

  lemma {:induction false} SameFinally(a: Program, b: Program, pc: nat, t: nat, from: nat)
    requires WidenedTo(a, b) && from <= |a.clauses|
    ensures FindFinally(a, pc, t, from) == FindFinally(b, pc, t, from)
    decreases |a.clauses| - from
  {
    hide WellFormed, Widens;
    if from < |a.clauses| {
      SameFinally(a, b, pc, t, from + 1);
    }
  }

  lemma {:induction false} SameTrim(a: Program, b: Program, ctx: seq<Ctx>, pc: nat)
    requires WidenedTo(a, b)
    ensures Trim(a, ctx, pc) == Trim(b, ctx, pc)
    decreases |ctx|
  {
    hide WellFormed, Widens;
    if ctx != [] {
      SameTrim(a, b, ctx[..|ctx| - 1], pc);
    }
  }

  lemma SameRaise(a: Program, b: Program, o: Oracle, s: State, pc: nat, exc: Val, from: nat)
    requires WidenedTo(a, b) && s.Running? && from <= |a.clauses|
    ensures RaiseAt(a, o, s, pc, exc, from) == RaiseAt(b, o, s, pc, exc, from)
  {
    hide Widens, FindHandler, Trim;
    SameHandler(a, b, o, s.env, exc, pc, from);
    var i := FindHandler(a, o, s.env, exc, pc, from);
    if i < |a.clauses| {
      assert InList(a.clauses[i], |a.code|);
      SameTrim(a, b, s.ctx, a.clauses[i].handlerBegin);
    }
  }

  lemma SameLeave(a: Program, b: Program, s: State, pc: nat, t: nat, from: nat)
    requires WidenedTo(a, b) && s.Running? && from <= |a.clauses|
    ensures LeaveFrom(a, s, pc, t, from) == LeaveFrom(b, s, pc, t, from)
  {
    hide Widens, FindFinally, Trim;
    SameFinally(a, b, pc, t, from);
    SameTrim(a, b, s.ctx, t);
    var i := FindFinally(a, pc, t, from);
    if i < |a.clauses| {
      assert InList(a.clauses[i], |a.code|);
      SameTrim(a, b, s.ctx, a.clauses[i].handlerBegin);
    }
  }

  lemma SameResume(a: Program, b: Program, o: Oracle, s: State, pending: Pending)
    requires WidenedTo(a, b) && s.Running?
    ensures Resume(a, o, s, pending) == Resume(b, o, s, pending)
  {
    hide Widens, RaiseAt, LeaveFrom, WellFormed;
    if pending.next <= |a.clauses| {
      match pending {
        case Unwind(exc, at, next) => SameRaise(a, b, o, s, at, exc, next);
        case LeaveTo(target, at, next) => SameLeave(a, b, s, at, target, next);
      }
    }
  }

  /** Node k: the same operand, key and use of locals, and the same opcode unless it is a widened branch. */
  lemma SameInstr(a: Program, b: Program, k: nat)
    requires WidenedTo(a, b) && k < |a.code|
    ensures k < |b.code| && OperandOk(a.code, k) && OperandOk(b.code, k)
    ensures a.code[k].operand == b.code[k].operand && KeyOf(a.code[k]) == KeyOf(b.code[k])
    ensures UsesSlot(a, a.code[k]) == UsesSlot(b, b.code[k]) && LocalUseOf(a.code[k]) == LocalUseOf(b.code[k])
    ensures a.code[k].opcode == b.code[k].opcode
            || (IsShort(a.code[k].opcode) && b.code[k].opcode == LongForm(a.code[k].opcode))
  {
    assert OperandOk(a.code, k) && OperandOk(b.code, k);
  }

  lemma SameFlow(a: Program, b: Program, k: nat, arm: nat)
    requires WidenedTo(a, b) && k < |a.code|
    ensures |b.code| == |a.code|
    ensures FallThrough(a, k) == FallThrough(b, k) && ArmTarget(a, k, arm) == ArmTarget(b, k, arm)
  {
    hide KeyOf, FlagsOf;
    SameInstr(a, b, k);
    if k + 1 + arm < |a.code| {
      SameInstr(a, b, k + 1 + arm);
    }
  }

  lemma SameOracleStep(a: Program, b: Program, o: Oracle, s: State)
    requires WidenedTo(a, b) && s.Running? && s.pc < |a.code| == |b.code|
    ensures OracleStep(a, o, s) == OracleStep(b, o, s)
  {
    hide KeyOf, FlagsOf, RaiseAt, ArmTarget, FallThrough, WellFormed, Widens;
    SameInstr(a, b, s.pc);
    var key := KeyOf(a.code[s.pc]);
    var t := s.(trace := s.trace + [Event(key, s.env, s.stack)]);
    match o.exec(key, s.env, s.stack) {
      case Next(env, stack) => SameFlow(a, b, s.pc, 0);
      case Goto(env, stack, arm) => SameFlow(a, b, s.pc, arm);
      case Raise(env, exc) => SameRaise(a, b, o, t.(env := env), s.pc, exc, 0);
    }
  }

  lemma SameStep(a: Program, b: Program, o: Oracle, s: State)
    requires WidenedTo(a, b) && s.Running?
    ensures Step(a, o, s) == Step(b, o, s)
  {
    hide KeyOf, RaiseAt, LeaveFrom, Resume, OracleStep, UsesSlot, LocalUseOf, WellFormed;
    assert |a.code| == |b.code|;
    if s.pc < |a.code| {
      SameInstr(a, b, s.pc);
      var op := a.code[s.pc].opcode;
      if op == RETHROW && s.ctx != [] && s.ctx[|s.ctx| - 1].InCatch? {
        SameRaise(a, b, o, s, s.pc, s.ctx[|s.ctx| - 1].exc, 0);
      } else if op == ENDFINALLY && s.ctx != [] && s.ctx[|s.ctx| - 1].InFinally? {
        SameResume(a, b, o, s.(ctx := s.ctx[..|s.ctx| - 1]), s.ctx[|s.ctx| - 1].pending);
      } else if op == LEAVE || op == LEAVE_S {
        SameLeave(a, b, s, s.pc, a.code[s.pc].operand.to, 0);
      } else {
        SameOracleStep(a, b, o, s);
      }
    }
  }

  /** A program and its widened form run the same, step by step. */
  lemma {:induction false} SameSteps(a: Program, b: Program, o: Oracle, s: State, n: nat)
    requires WidenedTo(a, b)
    ensures Steps(a, o, s, n) == Steps(b, o, s, n)
    decreases n
  {
    hide Step, WellFormed, Widens;
    if n > 0 && s.Running? {
      SameStep(a, b, o, s);
      SameSteps(a, b, o, Step(a, o, s), n - 1);
    }
  }

  /** What the exporter writes runs like the list it was given. */
  lemma RelaxedRunsTheSame(p: Program, o: Oracle, s: State, n: nat)
    requires WellFormed(p)
    ensures WellFormed(p.(code := Relax(p.code)))
    ensures Steps(p, o, s, n) == Steps(p.(code := Relax(p.code)), o, s, n)
  {
    hide Steps;
    SameSteps(p, p.(code := Relax(p.code)), o, s, n);
  }
}
