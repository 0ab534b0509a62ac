/** The original body inside the rewritten one: every step of the body is the same step of the rewriting. */
module CallTargetBody {
  import opened OpCodes
  import opened ILCode
  import opened ExceptionTable
  import opened ILMachine
  import opened CallTargetCode

  /** `w` is the rewriting of `o` according to plan `p`. */
  ghost predicate Rewriting(p: Plan, o: Program, w: Program) {
    && WellFormed(o) && WellFormed(w)
    && |o.code| > 0 && CodeRewritten(p, o.code, w.code)
    && w.clauses == NewClauses(p, o.code, o.clauses)
    && o.localBase == w.localBase == p.localCount && p.localCount + 4 <= 0x1_0000
    && o.isVoid == w.isVoid == p.isVoid
  }

  /** Control may be sent to instruction t from elsewhere. */
  predicate MayTarget(o: Program, t: nat) {
    t < |o.code|
  }

  predicate InstrOk(o: Program, k: nat)
    requires k < |o.code|
  {
    && !UsesSlot(o, o.code[k])
    && o.code[k].opcode != JMP && o.code[k].opcode != TAILCALL
    && (o.code[k].operand.Target? ==> MayTarget(o, o.code[k].operand.to))
  }

  predicate ClauseOk(o: Program, c: Clause<int>) {
    && 0 <= c.tryBegin < |o.code| && 0 <= c.tryEnd <= |o.code|
    && 0 <= c.handlerBegin <= c.handlerEnd < |o.code|
    && forall k :: 0 <= k < |o.code| && o.code[k].opcode == RET ==> !InTry(c, k) && !InHandler(c, k)
  }

  /**
   What is asked of the original body: its switches have their arguments, it uses its own locals only, contains no
   jmp and no tail. prefix, and returns outside all protected regions.
   */
  predicate BodyOk(o: Program) {
    && WellFormed(o) && SwitchesOk(o.code, 0, 0)
    && (forall k :: 0 <= k < |o.code| ==> InstrOk(o, k))
    && (forall i :: 0 <= i < |o.clauses| ==> ClauseOk(o, o.clauses[i]))
  }

  /** The part of it about protected regions. */
  predicate RegionsOk(o: Program) {
    WellFormed(o) && forall i :: 0 <= i < |o.clauses| ==> ClauseOk(o, o.clauses[i])
  }

  lemma BodyRegions(o: Program)
    requires BodyOk(o)
    ensures RegionsOk(o)
  {
    hide WellFormed, ClauseOk, InstrOk, SwitchesOk;
  }

  /** The three catch clauses that are added catch every exception. */
  ghost predicate CatchesAll(oracle: Oracle, from: nat) {
    forall i: nat, env, exc :: from <= i < from + 3 ==> oracle.catches(i, env, exc)
  }

  /** A catch clause for this class catches every exception. */
  ghost predicate CatchesExceptions(w: Program, oracle: Oracle, token: nat) {
    forall i: nat, env, exc :: i < |w.clauses| && CatchesClass(w.clauses[i], token) ==> oracle.catches(i, env, exc)
  }

  predicate CatchesClass(c: Clause<int>, token: nat) {
    c.flags == 0 && c.extra == ClassToken(token)
  }

  /** So the added clauses do, which are for class Exception. */
  lemma AddedCatch(p: Plan, o: Program, w: Program, oracle: Oracle)
    requires Rewriting(p, o, w) && CatchesExceptions(w, oracle, p.tokens.exceptionType)
    ensures CatchesAll(oracle, |o.clauses|)
  {
    hide CodeRewritten, WellFormed, CatchPos, EndTryPos, EndLeavePos, BeginBlock;
    forall i: nat, env, exc | |o.clauses| <= i < |o.clauses| + 3 ensures oracle.catches(i, env, exc) {
      assert CatchesClass(w.clauses[i], p.tokens.exceptionType);
    }
  }

  /** A clause takes an exception that was raised inside its try region. */
  predicate Takes(p: Program, oracle: Oracle, i: nat, env: Env, exc: Val)
    requires i < |p.clauses|
  {
    IsFinally(p.clauses[i]) || IsFault(p.clauses[i]) || oracle.catches(i, env, exc)
  }

  /** The step from s sends control somewhere, to a branch target or a handler, instead of falling through. */
  predicate Sends(o: Program, oracle: Oracle, s: State)
    requires s.Running? && WellFormed(o)
  {
    s.pc < |o.code|
    && var i := o.code[s.pc];
       !UsesSlot(o, i) && i.opcode != LDNULL
       && (i.opcode in {BR, BR_S, LEAVE, LEAVE_S, RETHROW, ENDFINALLY}
           || !oracle.exec(KeyOf(i), s.env, s.stack).Next?)
  }

  // ---- regions

  lemma OrderKept(p: Plan, code: Code, i: nat, j: nat)
    requires i < |code| && j < |code|
    ensures i < j <==> NodePos(p, code, i) < NodePos(p, code, j)
    ensures BodyStart(p) <= NodePos(p, code, i) < CatchPos(p, code)
    ensures (!p.isVoid && code[i].opcode == RET) || EntryPos(p, code, i) == NodePos(p, code, i)
  {
    hide BodyStart;
    if i < j {
      PositionsOrdered(p, code, i, j);
    }
    if j < i {
      PositionsOrdered(p, code, j, i);
    }
    PositionsOrdered(p, code, i, |code|);
    RetCountGap(p, code, 0, i);
  }

  /** An original clause covers a node after the rewriting exactly when it did before. */
  lemma RegionsKept(p: Plan, o: Program, w: Program, i: nat, k: nat)
    requires Rewriting(p, o, w) && RegionsOk(o) && i < |o.clauses| && k < |o.code|
    ensures InTry(w.clauses[i], NodePos(p, o.code, k)) == InTry(o.clauses[i], k)
    ensures InHandler(w.clauses[i], NodePos(p, o.code, k)) == InHandler(o.clauses[i], k)
    ensures w.clauses[i].flags == o.clauses[i].flags
    ensures w.clauses[i].handlerBegin == NodePos(p, o.code, o.clauses[i].handlerBegin)
    ensures MayTarget(o, o.clauses[i].handlerBegin)
  {
    hide CodeRewritten, NodePos, WellFormed, InstrOk;
    var c := o.clauses[i];
    assert ClauseOk(o, c) && InHandler(c, c.handlerBegin);
    NewClauseAt(p, o, w, i);
    OrderKept(p, o.code, k, c.tryBegin);
    if c.tryEnd < |o.code| {
      OrderKept(p, o.code, k, c.tryEnd);
    } else {
      BeforeTheEnd(p, o.code, k);
    }
    OrderKept(p, o.code, k, c.handlerBegin);
    OrderKept(p, o.code, c.handlerEnd, k);
  }

  lemma BeforeTheEnd(p: Plan, code: Code, k: nat)
    requires k < |code|
    ensures NodePos(p, code, k) < CatchPos(p, code) <= NewPos(p, code, |code|) == TotalSize(p, code)
  {
    hide BeginBlock, EndBlock, EntryPos, NodePos;
    OrderKept(p, code, k, k);
  }

  lemma NewClauseAt(p: Plan, o: Program, w: Program, i: nat)
    requires Rewriting(p, o, w) && i < |o.clauses|
    ensures InList(o.clauses[i], |o.code|) && w.clauses[i] == NewClause(p, o.code, o.clauses[i])
  {
    hide CodeRewritten, NewClause;
  }

  /** The added clauses as seen from inside the body. */
  lemma AddedClausesFromBody(p: Plan, o: Program, w: Program, k: nat)
    requires Rewriting(p, o, w) && k < |o.code|
    ensures var n, q := |o.clauses|, NodePos(p, o.code, k);
            && |w.clauses| == n + 4
            && !InTry(w.clauses[n], q) && !InTry(w.clauses[n + 1], q)
            && InTry(w.clauses[n + 2], q) && InTry(w.clauses[n + 3], q)
            && w.clauses[n + 2] == CatchClause(p, o.code) && w.clauses[n + 3] == FinallyClause(p, o.code)
  {
    hide CodeRewritten, NodePos, EntryPos, BeginBlock, EndBlock, WellFormed;
    OrderKept(p, o.code, k, k);
  }

  // ---- searches

  /** An exception in the body finds the clause it found before, or else the added catch. */
  lemma {:induction false} HandlerKept(p: Plan, o: Program, w: Program, oracle: Oracle, env: Env, exc: Val, k: nat,
    from: nat)
    requires Rewriting(p, o, w) && BodyOk(o) && CatchesAll(oracle, |o.clauses|)
    requires k < |o.code| && from <= |o.clauses|
    ensures var i := FindHandler(o, oracle, env, exc, k, from);
            FindHandler(w, oracle, env, exc, NodePos(p, o.code, k), from)
            == if i < |o.clauses| then i else |o.clauses| + 2
    decreases |o.clauses| - from
  {
    hide CodeRewritten, NodePos, BodyOk, WellFormed, NewClauses, InTry;
    BodyRegions(o);
    AddedClausesFromBody(p, o, w, k);
    if from < |o.clauses| {
      RegionsKept(p, o, w, from, k);
      HandlerKept(p, o, w, oracle, env, exc, k, from + 1);
    } else {
      var n, q := |o.clauses|, NodePos(p, o.code, k);
      assert FindHandler(w, oracle, env, exc, q, n + 2) == n + 2;
      assert FindHandler(w, oracle, env, exc, q, n + 1) == n + 2;
    }
  }

  /** A leave inside the body runs the finally handlers it ran before, and no added one. */
  lemma {:induction false} FinallyKept(p: Plan, o: Program, w: Program, k: nat, t: nat, from: nat)
    requires Rewriting(p, o, w) && BodyOk(o) && k < |o.code| && t < |o.code| && from <= |o.clauses|
    ensures var i := FindFinally(o, k, t, from);
            FindFinally(w, NodePos(p, o.code, k), NodePos(p, o.code, t), from)
            == if i < |o.clauses| then i else |w.clauses|
    decreases |o.clauses| - from
  {
    hide CodeRewritten, NodePos, BodyOk, WellFormed, NewClauses, InTry;
    BodyRegions(o);
    AddedClausesFromBody(p, o, w, k);
    AddedClausesFromBody(p, o, w, t);
    if from < |o.clauses| {
      RegionsKept(p, o, w, from, k);
      RegionsKept(p, o, w, from, t);
      FinallyKept(p, o, w, k, t, from + 1);
    } else {
      var n, q, r := |o.clauses|, NodePos(p, o.code, k), NodePos(p, o.code, t);
      assert FindFinally(w, q, r, n + 3) == n + 4;
      assert FindFinally(w, q, r, n + 2) == n + 4;
      assert FindFinally(w, q, r, n + 1) == n + 4;
    }
  }

  // ---- related states

  function NewPending(p: Plan, o: Program, x: Pending): Pending
    requires PendingOk(o, x)
  {
    match x
    case Unwind(exc, at, next) => Unwind(exc, NodePos(p, o.code, at), next)
    case LeaveTo(target, at, next) => LeaveTo(NodePos(p, o.code, target), NodePos(p, o.code, at), next)
  }

  predicate PendingOk(o: Program, x: Pending) {
    && x.at < |o.code| && x.next <= |o.clauses|
    && (x.LeaveTo? ==> MayTarget(o, x.target))
  }

  predicate CtxOk(o: Program, c: Ctx) {
    c.clause < |o.clauses| && (c.InFinally? ==> PendingOk(o, c.pending))
  }

  function NewCtxOne(p: Plan, o: Program, c: Ctx): Ctx
    requires CtxOk(o, c)
  {
    match c
    case InCatch(i, exc) => c
    case InFinally(i, x) => InFinally(i, NewPending(p, o, x))
  }

  predicate CtxsOk(o: Program, ctx: seq<Ctx>) {
    forall j :: 0 <= j < |ctx| ==> CtxOk(o, ctx[j])
  }

  function NewCtx(p: Plan, o: Program, ctx: seq<Ctx>): (r: seq<Ctx>)
    requires CtxsOk(o, ctx)
    ensures |r| == |ctx|
  {
    if ctx == [] then []
    else NewCtx(p, o, ctx[..|ctx| - 1]) + [NewCtxOne(p, o, ctx[|ctx| - 1])]
  }

  /** Running states of the original the relation covers. */
  predicate StateOk(o: Program, s: State) {
    s.Running? && s.pc <= |o.code| && CtxsOk(o, s.ctx) && s.slots == []
  }

  /**
   Where the rewriting is when the body is at pc: control that was sent there arrives at the node itself, control
   that fell through arrives in front of it, at the store of a result.
   */
  function PcOf(p: Plan, code: Code, pc: nat, sent: bool): nat
    requires pc <= |code|
  {
    if sent && pc < |code| then NodePos(p, code, pc) else EntryPos(p, code, pc)
  }

  /** The rewriting's state while it runs the body: the original's state, moved, on top of what came before. */
  function Lift(p: Plan, o: Program, s: State, sent: bool, slots: seq<Val>, before: seq<Event>): State
    requires StateOk(o, s)
  {
    Running(PcOf(p, o.code, s.pc, sent), s.stack, s.env, slots, NewCtx(p, o, s.ctx), before + s.trace)
  }

  lemma {:induction false} TrimKept(p: Plan, o: Program, w: Program, ctx: seq<Ctx>, k: nat)
    requires Rewriting(p, o, w) && BodyOk(o) && CtxsOk(o, ctx) && k < |o.code|
    ensures CtxsOk(o, Trim(o, ctx, k))
    ensures Trim(w, NewCtx(p, o, ctx), NodePos(p, o.code, k)) == NewCtx(p, o, Trim(o, ctx, k))
    decreases |ctx|
  {
    hide CodeRewritten, NodePos, BodyOk, WellFormed, NewClauses, InHandler, NewCtxOne, CtxOk;
    BodyRegions(o);
    if ctx != [] {
      var top := ctx[|ctx| - 1];
      assert CtxOk(o, top);
      TopClause(p, o, top);
      RegionsKept(p, o, w, top.clause, k);
      TrimKept(p, o, w, ctx[..|ctx| - 1], k);
      var r := NewCtx(p, o, ctx);
      assert r[..|r| - 1] == NewCtx(p, o, ctx[..|ctx| - 1]);
      assert |w.clauses| == |o.clauses| + 4 by { AddedClausesFromBody(p, o, w, k); }
    }
  }

  lemma TopClause(p: Plan, o: Program, c: Ctx)
    requires CtxOk(o, c)
    ensures c.clause < |o.clauses| && NewCtxOne(p, o, c).clause == c.clause
  {
  }

  lemma NewCtxPush(p: Plan, o: Program, ctx: seq<Ctx>, c: Ctx)
    requires CtxsOk(o, ctx) && CtxOk(o, c)
    ensures CtxsOk(o, ctx + [c]) && NewCtx(p, o, ctx + [c]) == NewCtx(p, o, ctx) + [NewCtxOne(p, o, c)]
  {
    hide CtxOk, NewCtxOne;
    assert (ctx + [c])[..|ctx|] == ctx;
  }

  // ---- single steps

  /** A state of the rewriting that agrees with a state of the original on everything but its position. */
  predicate Agrees(p: Plan, o: Program, s: State, x: State, slots: seq<Val>, before: seq<Event>) {
    && s.Running? && CtxsOk(o, s.ctx) && s.slots == []
    && x.Running? && x.env == s.env && x.slots == slots && x.ctx == NewCtx(p, o, s.ctx)
    && x.trace == before + s.trace
  }

  /** Where the rewriting is once an exception has left the body. */
  function Caught(p: Plan, o: Program, env: Env, exc: Val, slots: seq<Val>, trace: seq<Event>): State {
    Running(CatchPos(p, o.code), [exc], env, slots, [InCatch(|o.clauses| + 2, exc)], trace)
  }

  /** No handler of the body is running at a position after the body. */
  lemma {:induction false} TrimOutside(p: Plan, o: Program, w: Program, ctx: seq<Ctx>, q: nat)
    requires Rewriting(p, o, w) && RegionsOk(o) && CtxsOk(o, ctx) && q >= CatchPos(p, o.code)
    ensures Trim(w, NewCtx(p, o, ctx), q) == []
    decreases |ctx|
  {
    hide CodeRewritten, NodePos, RegionsOk, WellFormed, NewClauses, NewCtxOne, CtxOk, CatchPos;
    if ctx != [] {
      var top := ctx[|ctx| - 1];
      assert CtxOk(o, top);
      TopClause(p, o, top);
      HandlerInside(p, o, w, top.clause);
      TrimOutside(p, o, w, ctx[..|ctx| - 1], q);
      var r := NewCtx(p, o, ctx);
      assert r[..|r| - 1] == NewCtx(p, o, ctx[..|ctx| - 1]);
    }
  }

  /** Moved clauses stay inside the body. */
  lemma HandlerInside(p: Plan, o: Program, w: Program, i: nat)
    requires Rewriting(p, o, w) && RegionsOk(o) && i < |o.clauses|
    ensures |w.clauses| == |o.clauses| + 4
    ensures BodyStart(p) <= w.clauses[i].tryBegin
    ensures if o.clauses[i].tryEnd < |o.code| then w.clauses[i].tryEnd < CatchPos(p, o.code)
            else w.clauses[i].tryEnd == TotalSize(p, o.code)
    ensures BodyStart(p) <= w.clauses[i].handlerBegin && w.clauses[i].handlerEnd < CatchPos(p, o.code)
  {
    hide CodeRewritten, NodePos, WellFormed, InstrOk, CatchPos, BodyStart;
    var c := o.clauses[i];
    assert ClauseOk(o, c);
    NewClauseAt(p, o, w, i);
    OrderKept(p, o.code, c.tryBegin, c.tryBegin);
    if c.tryEnd < |o.code| {
      OrderKept(p, o.code, c.tryEnd, c.tryEnd);
    } else {
      BeforeTheEnd(p, o.code, c.tryBegin);
    }
    OrderKept(p, o.code, c.handlerBegin, c.handlerBegin);
    OrderKept(p, o.code, c.handlerEnd, c.handlerEnd);
  }

  /** Entering a handler of the body. */
  lemma EnterKept(p: Plan, o: Program, w: Program, s: State, x: State, slots: seq<Val>, before: seq<Event>,
                  i: nat, stack: seq<Val>, c: Ctx)
    requires Rewriting(p, o, w) && BodyOk(o) && Agrees(p, o, s, x, slots, before)
    requires i < |o.clauses| && CtxOk(o, c)
    ensures i < |w.clauses| && StateOk(o, Enter(o, s, i, stack, c))
    ensures Enter(w, x, i, stack, NewCtxOne(p, o, c))
            == Lift(p, o, Enter(o, s, i, stack, c), true, slots, before)
  {
    hide CodeRewritten, NodePos, EntryPos, BodyOk, NewClauses, Trim, InHandler, InTry, CtxOk, NewCtxOne, CatchPos;
    BodyRegions(o);
    RegionsKept(p, o, w, i, 0);
    AddedClausesFromBody(p, o, w, 0);
    var h: nat := o.clauses[i].handlerBegin;
    OrderKept(p, o.code, h, h);
    TrimKept(p, o, w, s.ctx, h);
    NewCtxPush(p, o, Trim(o, s.ctx, h), c);
  }

  lemma RaiseKeptInside(p: Plan, o: Program, w: Program, oracle: Oracle, s: State, x: State, slots: seq<Val>,
                        before: seq<Event>, k: nat, exc: Val, from: nat)
    requires Rewriting(p, o, w) && BodyOk(o) && CatchesAll(oracle, |o.clauses|)
    requires Agrees(p, o, s, x, slots, before) && k < |o.code| && from <= |o.clauses|
    requires FindHandler(o, oracle, s.env, exc, k, from) < |o.clauses|
    ensures var r := RaiseAt(o, oracle, s, k, exc, from);
            StateOk(o, r)
            && RaiseAt(w, oracle, x, NodePos(p, o.code, k), exc, from) == Lift(p, o, r, true, slots, before)
  {
    hide CodeRewritten, NodePos, EntryPos, BodyOk, NewClauses, FindHandler, Enter, InHandler, InTry, CatchPos, Lift;
    BodyRegions(o);
    HandlerKept(p, o, w, oracle, s.env, exc, k, from);
    var i := FindHandler(o, oracle, s.env, exc, k, from);
    RegionsKept(p, o, w, i, k);
    EnterKept(p, o, w, s, x, slots, before, i, [], InFinally(i, Unwind(exc, k, i + 1)));
    EnterKept(p, o, w, s, x, slots, before, i, [exc], InCatch(i, exc));
  }

  lemma RaiseKept(p: Plan, o: Program, w: Program, oracle: Oracle, s: State, x: State, slots: seq<Val>,
                  before: seq<Event>, k: nat, exc: Val, from: nat)
    requires Rewriting(p, o, w) && BodyOk(o) && CatchesAll(oracle, |o.clauses|)
    requires Agrees(p, o, s, x, slots, before) && k < |o.code| && from <= |o.clauses|
    ensures var r := RaiseAt(o, oracle, s, k, exc, from);
            var y := RaiseAt(w, oracle, x, NodePos(p, o.code, k), exc, from);
            if r.Running? then StateOk(o, r) && y == Lift(p, o, r, true, slots, before)
            else r == Done(Thrown(s.env, exc), s.trace)
                 && y == Caught(p, o, s.env, exc, slots, before + s.trace)
  {
    hide CodeRewritten, NodePos, EntryPos, BodyOk, NewClauses, FindHandler, Trim, InHandler, InTry;
    BodyRegions(o);
    if FindHandler(o, oracle, s.env, exc, k, from) < |o.clauses| {
      RaiseKeptInside(p, o, w, oracle, s, x, slots, before, k, exc, from);
    } else {
      HandlerKept(p, o, w, oracle, s.env, exc, k, from);
      AddedClausesFromBody(p, o, w, k);
      TrimOutside(p, o, w, s.ctx, CatchPos(p, o.code));
    }
  }

  lemma LeaveKept(p: Plan, o: Program, w: Program, s: State, x: State, slots: seq<Val>, before: seq<Event>,
                  k: nat, t: nat, from: nat)
    requires Rewriting(p, o, w) && BodyOk(o)
    requires Agrees(p, o, s, x, slots, before) && k < |o.code| && from <= |o.clauses| && MayTarget(o, t)
    ensures var r := LeaveFrom(o, s, k, t, from);
            StateOk(o, r) && LeaveFrom(w, x, NodePos(p, o.code, k), NodePos(p, o.code, t), from)
                             == Lift(p, o, r, true, slots, before)
  {
    hide CodeRewritten, NodePos, EntryPos, BodyOk, NewClauses, FindFinally, Trim, InHandler, InTry;
    FinallyKept(p, o, w, k, t, from);
    AddedClausesFromBody(p, o, w, k);
    var i := FindFinally(o, k, t, from);
    if i < |o.clauses| {
      EnterKept(p, o, w, s, x, slots, before, i, [], InFinally(i, LeaveTo(t, k, i + 1)));
    } else {
      OrderKept(p, o.code, t, t);
      TrimKept(p, o, w, s.ctx, t);
    }
  }

  /** The node of an ordinary instruction: same opcode, same use of locals, same key. */
  lemma NodeAt(p: Plan, o: Program, w: Program, k: nat)
    requires Rewriting(p, o, w) && BodyOk(o) && k < |o.code| && o.code[k].opcode != RET
    ensures var q := NodePos(p, o.code, k);
            && q == EntryPos(p, o.code, k) && q < |w.code|
            && w.code[q] == Instr(o.code[k].opcode, NewOperand(p, o.code, o.code[k].operand))
            && KeyOf(w.code[q]) == KeyOf(o.code[k]) && !UsesSlot(w, w.code[q])
            && !UsesSlot(o, o.code[k])
    ensures OperandOk(o.code, k)
    ensures o.code[k].opcode in {BR, BR_S, LEAVE, LEAVE_S} ==> o.code[k].operand.Target?
    ensures o.code[k].operand.Target? ==>
              MayTarget(o, o.code[k].operand.to)
              && w.code[NodePos(p, o.code, k)].operand == Target(NodePos(p, o.code, o.code[k].operand.to))
  {
    hide NewClauses, EntryPos, SwitchesOk;
    assert NodeRewritten(p, o.code, w.code, k) && InstrOk(o, k) && OperandOk(o.code, k);
  }

  /** An instruction of the body that is neither a return nor stuck: the rewriting takes the same step. */
  ghost predicate StepAgrees(p: Plan, o: Program, w: Program, oracle: Oracle, s: State, sent: bool,
                             slots: seq<Val>, before: seq<Event>)
    requires WellFormed(o) && WellFormed(w) && StateOk(o, s)
  {
    var r := Step(o, oracle, s);
    var y := Step(w, oracle, Lift(p, o, s, sent, slots, before));
    match r
    case Running(_, _, _, _, _, _) => StateOk(o, r) && y == Lift(p, o, r, Sends(o, oracle, s), slots, before)
    case Done(Thrown(env, exc), trace) => y == Caught(p, o, env, exc, slots, before + trace)
    case Done(Returned(_, _), _) => false
    case Stuck => true
  }

  lemma LiftAgrees(p: Plan, o: Program, s: State, sent: bool, slots: seq<Val>, before: seq<Event>)
    requires StateOk(o, s)
    ensures Agrees(p, o, s, Lift(p, o, s, sent, slots, before), slots, before)
  {
  }

  lemma RethrowStep(p: Plan, o: Program, w: Program, oracle: Oracle, s: State, sent: bool,
                    slots: seq<Val>, before: seq<Event>)
    requires Rewriting(p, o, w) && BodyOk(o) && CatchesAll(oracle, |o.clauses|) && StateOk(o, s)
    requires s.pc < |o.code| && o.code[s.pc].opcode == RETHROW
    ensures StepAgrees(p, o, w, oracle, s, sent, slots, before)
  {
    hide CodeRewritten, NodePos, EntryPos, BodyOk, NewClauses, RaiseAt, UsesSlot, NewOperand;
    NodeAt(p, o, w, s.pc);
    LiftAgrees(p, o, s, sent, slots, before);
    if s.ctx != [] && s.ctx[|s.ctx| - 1].InCatch? {
      RaiseKept(p, o, w, oracle, s, Lift(p, o, s, sent, slots, before), slots, before, s.pc, s.ctx[|s.ctx| - 1].exc, 0);
    }
  }

  lemma LeaveStep(p: Plan, o: Program, w: Program, oracle: Oracle, s: State, sent: bool,
                  slots: seq<Val>, before: seq<Event>)
    requires Rewriting(p, o, w) && BodyOk(o) && StateOk(o, s)
    requires s.pc < |o.code| && (o.code[s.pc].opcode == LEAVE || o.code[s.pc].opcode == LEAVE_S)
    ensures StepAgrees(p, o, w, oracle, s, sent, slots, before)
  {
    hide CodeRewritten, NodePos, EntryPos, BodyOk, NewClauses, LeaveFrom, UsesSlot, NewOperand;
    NodeAt(p, o, w, s.pc);
    LiftAgrees(p, o, s, sent, slots, before);
    LeaveKept(p, o, w, s, Lift(p, o, s, sent, slots, before), slots, before, s.pc, o.code[s.pc].operand.to, 0);
  }

  lemma EndFinallyStep(p: Plan, o: Program, w: Program, oracle: Oracle, s: State, sent: bool,
                       slots: seq<Val>, before: seq<Event>)
    requires Rewriting(p, o, w) && BodyOk(o) && CatchesAll(oracle, |o.clauses|) && StateOk(o, s)
    requires s.pc < |o.code| && o.code[s.pc].opcode == ENDFINALLY
    ensures StepAgrees(p, o, w, oracle, s, sent, slots, before)
  {
    hide CodeRewritten, NodePos, EntryPos, BodyOk, NewClauses, LeaveFrom, RaiseAt, UsesSlot, NewOperand;
    NodeAt(p, o, w, s.pc);
    AddedClausesFromBody(p, o, w, 0);
    if s.ctx != [] && s.ctx[|s.ctx| - 1].InFinally? {
      var n := |s.ctx| - 1;
      var top := s.ctx[n];
      assert CtxOk(o, top);
      var s' := s.(ctx := s.ctx[..n]);
      var x := Lift(p, o, s, sent, slots, before);
      var x' := x.(ctx := x.ctx[..n]);
      assert x.ctx == NewCtx(p, o, s'.ctx) + [NewCtxOne(p, o, top)];
      assert x'.ctx == NewCtx(p, o, s'.ctx);
      match top.pending {
        case Unwind(exc, at, next) => RaiseKept(p, o, w, oracle, s', x', slots, before, at, exc, next);
        case LeaveTo(target, at, next) => LeaveKept(p, o, w, s', x', slots, before, at, target, next);
      }
    }
  }

  // ---- switches

  /** Scanning from k with no arguments owed, the arguments of a later switch follow it. */
  lemma {:induction false} SwitchArgsFollow(code: Code, k: nat, pending: nat, s: nat)
    requires Exportable(code) && k <= s < |code| && SwitchesOk(code, k, pending) && code[s].opcode == SWITCH
    ensures OperandOk(code, s) && SwitchesOk(code, s + 1, code[s].operand.w)
    decreases s - k
  {
    hide FlagsOf;
    assert OperandOk(code, s) && OperandOk(code, k);
    if k < s {
      if code[k].opcode == SWITCH_ARG {
        SwitchArgsFollow(code, k + 1, pending - 1, s);
      } else {
        SwitchArgsFollow(code, k + 1, if code[k].opcode == SWITCH then code[k].operand.w else 0, s);
      }
    }
  }

  lemma {:induction false} OwedArgs(code: Code, k: nat, pending: nat)
    requires Exportable(code) && k <= |code| && SwitchesOk(code, k, pending)
    ensures k + pending <= |code| && forall j :: k <= j < k + pending ==> code[j].opcode == SWITCH_ARG
    decreases |code| - k
  {
    hide FlagsOf;
    if pending > 0 && k < |code| {
      assert OperandOk(code, k);
      OwedArgs(code, k + 1, pending - 1);
    }
  }

  /** Between a switch and the end of its arguments nothing is inserted. */
  lemma {:induction false} ArgsStayTogether(p: Plan, code: Code, s: nat, count: nat, j: nat)
    requires j <= count && s + 1 + count <= |code|
    requires forall i :: s + 1 <= i < s + 1 + count ==> code[i].opcode == SWITCH_ARG
    ensures EntryPos(p, code, s + 1 + j) == EntryPos(p, code, s + 1) + j
  {
    if j > 0 {
      ArgsStayTogether(p, code, s, count, j - 1);
    }
  }

  lemma SwitchKept(p: Plan, o: Program, w: Program, s: nat, arm: nat)
    requires Rewriting(p, o, w) && BodyOk(o) && s < |o.code| && o.code[s].opcode == SWITCH
    ensures FallThrough(o, s) <= |o.code| && NodePos(p, o.code, s) < |w.code|
    ensures FallThrough(w, NodePos(p, o.code, s)) == EntryPos(p, o.code, FallThrough(o, s))
    ensures ArmTarget(o, s, arm) < |o.code| ==>
              && MayTarget(o, ArmTarget(o, s, arm))
              && ArmTarget(w, NodePos(p, o.code, s), arm) == NodePos(p, o.code, ArmTarget(o, s, arm)) < |w.code|
  {
    hide NewClauses, SwitchesOk, EntryPos, CodeRewritten, FlagsOf;
    NodeAt(p, o, w, s);
    SwitchArgsFollow(o.code, 0, 0, s);
    var count := o.code[s].operand.w;
    OwedArgs(o.code, s + 1, count);
    PositionsOrdered(p, o.code, s, s + 1);
    ArgsStayTogether(p, o.code, s, count, count);
    if arm < count {
      ArgsStayTogether(p, o.code, s, count, arm);
      NodeAt(p, o, w, s + 1 + arm);
      assert InstrOk(o, s + 1 + arm);
      if o.code[s + 1 + arm].operand.Target? {
        OrderKept(p, o.code, o.code[s + 1 + arm].operand.to, 0);
        SizesOrdered(p, o, w);
      }
    }
  }

  lemma SizesOrdered(p: Plan, o: Program, w: Program)
    requires Rewriting(p, o, w)
    ensures CatchPos(p, o.code) <= |w.code|
  {
    hide NewClauses;
  }

  /** Falling through and branching, for every instruction but a return. */
  lemma FlowKept(p: Plan, o: Program, w: Program, k: nat, arm: nat)
    requires Rewriting(p, o, w) && BodyOk(o) && k < |o.code| && o.code[k].opcode != RET
    ensures FallThrough(o, k) <= |o.code|
    ensures NodePos(p, o.code, k) < |w.code|
    ensures FallThrough(w, NodePos(p, o.code, k)) == EntryPos(p, o.code, FallThrough(o, k))
    ensures ArmTarget(o, k, arm) < |o.code| ==>
              && MayTarget(o, ArmTarget(o, k, arm))
              && ArmTarget(w, NodePos(p, o.code, k), arm) == NodePos(p, o.code, ArmTarget(o, k, arm)) < |w.code|
  {
    hide NewClauses, SwitchesOk, EntryPos, CodeRewritten, FlagsOf;
    NodeAt(p, o, w, k);
    if o.code[k].opcode == SWITCH {
      SwitchKept(p, o, w, k, arm);
    } else {
      PositionsOrdered(p, o.code, k, k + 1);
      if o.code[k].operand.Target? {
        OrderKept(p, o.code, o.code[k].operand.to, 0);
        SizesOrdered(p, o, w);
      }
    }
  }

  /** Instructions the oracle executes. */
  lemma OracleKept(p: Plan, o: Program, w: Program, oracle: Oracle, s: State, sent: bool,
                   slots: seq<Val>, before: seq<Event>)
    requires Rewriting(p, o, w) && BodyOk(o) && CatchesAll(oracle, |o.clauses|) && StateOk(o, s)
    requires s.pc < |o.code| && o.code[s.pc].opcode != RET
    ensures PcOf(p, o.code, s.pc, sent) == NodePos(p, o.code, s.pc) < |w.code|
    ensures var r := OracleStep(o, oracle, s);
            var y := OracleStep(w, oracle, Lift(p, o, s, sent, slots, before));
            var jumps := !oracle.exec(KeyOf(o.code[s.pc]), s.env, s.stack).Next?;
            match r
            case Running(_, _, _, _, _, _) => StateOk(o, r) && y == Lift(p, o, r, jumps, slots, before)
            case Done(Thrown(env, exc), trace) => y == Caught(p, o, env, exc, slots, before + trace)
            case Done(Returned(_, _), _) => false
            case Stuck => true
  {
    hide NewClauses, CodeRewritten, FlagsOf, EntryPos, NodePos, RaiseAt, ArmTarget, FallThrough, KeyOf, BodyOk,
      NewCtx, NewOperand, UsesSlot;
    var x := Lift(p, o, s, sent, slots, before);
    NodeAt(p, o, w, s.pc);
    FlowKept(p, o, w, s.pc, 0);
    var key := KeyOf(o.code[s.pc]);
    var e := Event(key, s.env, s.stack);
    assert x.trace + [e] == before + (s.trace + [e]);
    match oracle.exec(key, s.env, s.stack) {
      case Next(env, stack) =>
      case Goto(env, stack, arm) =>
        FlowKept(p, o, w, s.pc, arm);
        if ArmTarget(o, s.pc, arm) < |o.code| {
          OrderKept(p, o.code, ArmTarget(o, s.pc, arm), 0);
        }
      case Raise(env, exc) =>
        var s' := s.(trace := s.trace + [e], env := env);
        var x' := x.(trace := x.trace + [e], env := env);
        RaiseKept(p, o, w, oracle, s', x', slots, before, s.pc, exc, 0);
    }
  }

  /** One step of the body is one step of the rewriting. */
  lemma StepKept(p: Plan, o: Program, w: Program, oracle: Oracle, s: State, sent: bool,
                 slots: seq<Val>, before: seq<Event>)
    requires Rewriting(p, o, w) && BodyOk(o) && CatchesAll(oracle, |o.clauses|) && StateOk(o, s)
    requires s.pc < |o.code| ==> o.code[s.pc].opcode != RET
    ensures StepAgrees(p, o, w, oracle, s, sent, slots, before)
  {
    hide NewClauses, CodeRewritten, FlagsOf, EntryPos, RaiseAt, LeaveFrom, Resume, NewCtx, OracleStep, BodyOk,
      StepAgrees, UsesSlot, NewOperand;
    if s.pc < |o.code| {
      var op := o.code[s.pc].opcode;
      if op == RETHROW {
        RethrowStep(p, o, w, oracle, s, sent, slots, before);
      } else if op == LEAVE || op == LEAVE_S {
        LeaveStep(p, o, w, oracle, s, sent, slots, before);
      } else if op == ENDFINALLY {
        EndFinallyStep(p, o, w, oracle, s, sent, slots, before);
      } else {
        OtherStep(p, o, w, oracle, s, sent, slots, before);
      }
    } else {
      StuckAtEnd(p, o, w, oracle, s, sent, slots, before);
    }
  }

  lemma StuckAtEnd(p: Plan, o: Program, w: Program, oracle: Oracle, s: State, sent: bool,
                   slots: seq<Val>, before: seq<Event>)
    requires WellFormed(o) && WellFormed(w) && StateOk(o, s) && s.pc == |o.code|
    ensures StepAgrees(p, o, w, oracle, s, sent, slots, before)
  {
    hide EntryPos;
  }

  lemma OtherStep(p: Plan, o: Program, w: Program, oracle: Oracle, s: State, sent: bool,
                  slots: seq<Val>, before: seq<Event>)
    requires Rewriting(p, o, w) && BodyOk(o) && CatchesAll(oracle, |o.clauses|) && StateOk(o, s)
    requires s.pc < |o.code| && o.code[s.pc].opcode !in {RET, RETHROW, LEAVE, LEAVE_S, ENDFINALLY}
    ensures StepAgrees(p, o, w, oracle, s, sent, slots, before)
  {
    hide NewClauses, CodeRewritten, FlagsOf, EntryPos, NodePos, NewCtx, OracleStep, BodyOk, UsesSlot, NewOperand;
    NodeAt(p, o, w, s.pc);
    var op := o.code[s.pc].opcode;
    if op == LDNULL {
      PositionsOrdered(p, o.code, s.pc, s.pc + 1);
    } else if op == BR || op == BR_S {
      OrderKept(p, o.code, o.code[s.pc].operand.to, 0);
    } else if op != SWITCH_ARG {
      OracleKept(p, o, w, oracle, s, sent, slots, before);
    }
  }
}
