/** The rewritten method as a whole: BeginMethod, the original body, EndMethod, and the way out. */
module CallTargetMeaning {
  import opened OpCodes
  import opened ILCode
  import opened ILMachine
  import opened CallTargetCode
  import opened StraightLine
  import opened CallTargetBody

  function LogKey(p: Plan): Key {
    Key(CALL, p.tokens.logException)
  }

  /** LogException takes the exception and returns normally. */
  ghost predicate LogReturns(p: Plan, oracle: Oracle) {
    forall env, exc :: LogReturnsAt(p, oracle, env, exc)
  }

  predicate LogReturnsAt(p: Plan, oracle: Oracle, env: Env, exc: Val) {
    oracle.exec(LogKey(p), env, [exc]).Next? && oracle.exec(LogKey(p), env, [exc]).stack == []
  }

  /** After a guarded block: as it ran through, or with its exception logged. The stack is emptied either way. */
  function AfterBlock(p: Plan, oracle: Oracle, r: Ran): Frame
    requires LogReturns(p, oracle) && !r.Wedged?
  {
    match r
    case Through(f) => f.(stack := [])
    case Failed(_, f, exc) =>
      assert LogReturnsAt(p, oracle, f.env, exc);
      Frame(oracle.exec(LogKey(p), f.env, [exc]).env, [], f.slots, f.trace + [Event(LogKey(p), f.env, [exc])])
  }

  /** An exception of a guarded block is handed to LogException, which is the last thing that happens. */
  lemma FailureLogged(p: Plan, oracle: Oracle, r: Ran)
    requires LogReturns(p, oracle) && r.Failed?
    ensures AfterBlock(p, oracle, r).trace
            == r.f.trace + [Event(Key(CALL, p.tokens.logException), r.f.env, [r.exc])]
  {
  }

  /**
   A block at `at` guarded by clause c, whose handler logs the exception, with both ways out leading to t while
   the handlers in `ctx` stay active.
   */
  ghost predicate Guarded(p: Plan, w: Program, at: nat, ops: seq<Op>, c: nat, t: nat, ctx: seq<Ctx>) {
    var e := at + |ops|;
    && WellFormed(w) && HoldsOps(w, at, ops) && c < |w.clauses| && e + 2 < |w.code| && t <= |w.code|
    && w.code[e] == w.code[e + 2] == Instr(LEAVE_S, Target(t))
    && w.code[e + 1] == WithToken(CALL, p.tokens.logException)
    && !IsFinally(w.clauses[c]) && !IsFault(w.clauses[c])
    && w.clauses[c].handlerBegin == e + 1
    && FindFinally(w, e, t, 0) == FindFinally(w, e + 2, t, 0) == |w.clauses|
    && Trim(w, ctx, t) == Trim(w, ctx, e + 1) == ctx
    && !InHandler(w.clauses[c], t)
  }

  /** The exception of a block at `at` that failed is taken by clause c. */
  predicate CaughtBy(w: Program, oracle: Oracle, at: nat, r: Ran, c: nat) {
    r.Failed? ==> FindHandler(w, oracle, r.f.env, r.exc, at + r.at, 0) == c
  }

  lemma LeaveStepTo(w: Program, oracle: Oracle, s: State, t: nat)
    requires WellFormed(w) && s.Running? && s.pc < |w.code| && w.code[s.pc] == Instr(LEAVE_S, Target(t))
    requires FindFinally(w, s.pc, t, 0) == |w.clauses|
    ensures Step(w, oracle, s) == s.(pc := t, stack := [], ctx := Trim(w, s.ctx, t))
  {
    hide FindFinally, WellFormed;
  }

  /** The handler of a guarded block: log, leave, and the block's context is back. */
  lemma LogAndLeave(p: Plan, w: Program, oracle: Oracle, at: nat, ops: seq<Op>, c: nat, t: nat, ctx: seq<Ctx>,
                    f: Frame, exc: Val)
    requires Guarded(p, w, at, ops, c, t, ctx) && LogReturns(p, oracle)
    ensures var e := at + |ops|;
            Steps(w, oracle, Running(e + 1, [exc], f.env, f.slots, ctx + [InCatch(c, exc)], f.trace), 2)
            == StateOf(AfterBlock(p, oracle, Failed(0, f, exc)), t, ctx)
  {
    hide FindFinally, WellFormed, HoldsOps, Trim, InHandler;
    var e := at + |ops|;
    assert LogReturnsAt(p, oracle, f.env, exc);
    var s := Running(e + 1, [exc], f.env, f.slots, ctx + [InCatch(c, exc)], f.trace);
    var s1 := Running(e + 2, [], oracle.exec(LogKey(p), f.env, [exc]).env, f.slots, s.ctx,
                      f.trace + [Event(LogKey(p), f.env, [exc])]);
    CallStep(p, w, oracle, s);
    LeaveStepTo(w, oracle, s1, t);
    assert Trim(w, s.ctx, t) == ctx by { TrimDrops(w, ctx, InCatch(c, exc), t); }
    hide Step;
    StepsUnfold(w, oracle, s, 2);
    StepsUnfold(w, oracle, s1, 1);
  }

  lemma TrimDrops(w: Program, ctx: seq<Ctx>, top: Ctx, t: nat)
    requires top.clause < |w.clauses| && !InHandler(w.clauses[top.clause], t)
    ensures Trim(w, ctx + [top], t) == Trim(w, ctx, t)
  {
    assert (ctx + [top])[..|ctx|] == ctx;
  }

  lemma CallStep(p: Plan, w: Program, oracle: Oracle, s: State)
    requires WellFormed(w) && s.Running? && s.pc < |w.code| && |s.stack| == 1
    requires w.code[s.pc] == WithToken(CALL, p.tokens.logException)
    requires LogReturnsAt(p, oracle, s.env, s.stack[0])
    ensures Step(w, oracle, s)
            == s.(pc := s.pc + 1, stack := [], env := oracle.exec(LogKey(p), s.env, [s.stack[0]]).env,
                  trace := s.trace + [Event(LogKey(p), s.env, [s.stack[0]])])
  {
    hide WellFormed;
    assert s.stack == [s.stack[0]];
  }

  lemma {:induction false} FailsInside(base: nat, o: Oracle, ops: seq<Op>, k: nat, f: Frame)
    requires k <= |ops|
    ensures RunOps(base, o, ops, k, f).Failed? ==> k <= RunOps(base, o, ops, k, f).at < |ops|
    decreases |ops| - k
  {
    hide RunOp;
    if k < |ops| && RunOp(base, o, ops[k].i, f).Through? {
      FailsInside(base, o, ops, k + 1, RunOp(base, o, ops[k].i, f).f);
    }
  }

  /** A guarded block reaches t whatever its instructions do. */
  lemma GuardedRuns(p: Plan, w: Program, oracle: Oracle, at: nat, ops: seq<Op>, c: nat, t: nat, ctx: seq<Ctx>, f: Frame)
    returns (m: nat)
    requires Guarded(p, w, at, ops, c, t, ctx) && LogReturns(p, oracle)
    requires !RunOps(w.localBase, oracle, ops, 0, f).Wedged?
    requires CaughtBy(w, oracle, at, RunOps(w.localBase, oracle, ops, 0, f), c)
    ensures Steps(w, oracle, StateOf(f, at, ctx), m)
            == StateOf(AfterBlock(p, oracle, RunOps(w.localBase, oracle, ops, 0, f)), t, ctx)
  {
    hide WellFormed, HoldsOps, Step, RunOps, InHandler, FindFinally, Trim, FindHandler;
    var e := at + |ops|;
    var s := StateOf(f, at, ctx);
    StepsRunOps(w, oracle, at, ops, 0, f, ctx);
    match RunOps(w.localBase, oracle, ops, 0, f) {
      case Through(g) =>
        LeaveStepTo(w, oracle, StateOf(g, e, ctx), t);
        StepsUnfold(w, oracle, StateOf(g, e, ctx), 1);
        StepsCompose(w, oracle, s, |ops|, 1);
        m := |ops| + 1;
      case Failed(j, g, exc) =>
        assert FindHandler(w, oracle, g.env, exc, at + j, 0) == c;
        assert RaisedIn(w, oracle, g, at + j, ctx, exc)
            == Running(e + 1, [exc], g.env, g.slots, ctx + [InCatch(c, exc)], g.trace);
        LogAndLeave(p, w, oracle, at, ops, c, t, ctx, g, exc);
        StepsCompose(w, oracle, s, j + 1, 2);
        m := j + 3;
    }
  }

  // ---- searches

  /** Clause i covers q and takes the exception. */
  predicate Catches(w: Program, oracle: Oracle, i: nat, env: Env, exc: Val, q: nat)
    requires i < |w.clauses|
  {
    InTry(w.clauses[i], q) && Takes(w, oracle, i, env, exc)
  }

  /** A clause that catches is the one found exactly when none before it does. */
  lemma {:induction false} HandlerIff(w: Program, oracle: Oracle, env: Env, exc: Val, q: nat, from: nat, c: nat)
    requires from <= c < |w.clauses| && Catches(w, oracle, c, env, exc, q)
    ensures FindHandler(w, oracle, env, exc, q, from) == c
            <==> forall i :: from <= i < c ==> !Catches(w, oracle, i, env, exc, q)
    decreases c - from
  {
    if from < c {
      HandlerIff(w, oracle, env, exc, q, from + 1, c);
      if !Catches(w, oracle, from, env, exc, q) {
        assert FindHandler(w, oracle, env, exc, q, from) == FindHandler(w, oracle, env, exc, q, from + 1);
      }
    }
  }

  /** The clause found catches, and none that catches comes before it. */
  lemma {:induction false} FoundCatches(w: Program, oracle: Oracle, env: Env, exc: Val, q: nat, from: nat)
    requires from <= |w.clauses|
    ensures var r := FindHandler(w, oracle, env, exc, q, from);
            && (r < |w.clauses| ==> Catches(w, oracle, r, env, exc, q))
            && (forall i :: from <= i < r ==> !Catches(w, oracle, i, env, exc, q))
    decreases |w.clauses| - from
  {
    if from < |w.clauses| && !Catches(w, oracle, from, env, exc, q) {
      FoundCatches(w, oracle, env, exc, q, from + 1);
    }
  }

  predicate Passes(w: Program, i: nat, pc: nat, t: nat)
    requires i < |w.clauses|
  {
    !IsFinally(w.clauses[i]) || !InTry(w.clauses[i], pc) || InTry(w.clauses[i], t)
  }

  lemma {:induction false} FinallyIs(w: Program, pc: nat, t: nat, from: nat, c: nat)
    requires from <= c <= |w.clauses|
    requires forall i :: from <= i < c ==> Passes(w, i, pc, t)
    requires c < |w.clauses| ==> !Passes(w, c, pc, t)
    ensures FindFinally(w, pc, t, from) == c
    decreases c - from
  {
    if from < c {
      assert Passes(w, from, pc, t);
      FinallyIs(w, pc, t, from + 1, c);
    }
  }

  // ---- the rewriting's layout

  /** Positions in order: prologue, body, epilogue. */
  lemma LayoutOrder(p: Plan, o: Program, w: Program)
    requires Rewriting(p, o, w)
    ensures BodyStart(p) == |BeginBlock(p)| + 3
    ensures BodyStart(p) <= NodePos(p, o.code, 0) < CatchPos(p, o.code)
    ensures |w.clauses| == |o.clauses| + 4
    ensures w.clauses[|o.clauses|] == BeginClause(p, o.code)
    ensures w.clauses[|o.clauses| + 1] == EndClause(p, o.code)
    ensures w.clauses[|o.clauses| + 2] == CatchClause(p, o.code)
    ensures w.clauses[|o.clauses| + 3] == FinallyClause(p, o.code)
    ensures |w.code| == TotalSize(p, o.code)
  {
    hide BeginBlock, EndBlock, NodePos;
    OrderKept(p, o.code, 0, 0);
  }

  lemma PrologueAt(p: Plan, o: Program, w: Program)
    requires Rewriting(p, o, w)
    ensures HoldsOps(w, 0, BeginBlock(p))
    ensures var b := |BeginBlock(p)|;
            && b + 2 < |w.code|
            && w.code[b] == w.code[b + 2] == Instr(LEAVE_S, Target(NodePos(p, o.code, 0)))
            && w.code[b + 1] == WithToken(CALL, p.tokens.logException)
  {
    hide BeginBlock, EndBlock, NodePos, NewClauses, TotalSize;
    var b := |BeginBlock(p)|;
    var pro := Prologue(p, o.code);
    forall j | 0 <= j < b + 3 ensures w.code[j] == pro[j] {
      assert w.code[..BodyStart(p)][j] == w.code[j];
    }
  }

  lemma EpilogueIndex(p: Plan, o: Program, w: Program, j: nat)
    requires Rewriting(p, o, w) && j < |Epilogue(p, o.code)|
    ensures CatchPos(p, o.code) + j < |w.code| && w.code[CatchPos(p, o.code) + j] == Epilogue(p, o.code)[j]
  {
    hide BeginBlock, EndBlock, NodePos, NewClauses, EntryPos, Epilogue, CatchPos;
    var c := CatchPos(p, o.code);
    assert w.code[c..] == Epilogue(p, o.code);
    assert w.code[c..][j] == w.code[c + j];
  }

  lemma EpilogueShape(p: Plan, code: Code)
    ensures var epi, n := Epilogue(p, code), |EndBlock(p)|;
            && |epi| == n + 7 + (if p.isVoid then 0 else 1)
            && epi[0] == StoreLocal(ExceptionLocal(p)) && epi[1] == Bare(RETHROW)
            && (forall k :: 0 <= k < n ==> epi[2 + k] == EndBlock(p)[k].i)
            && epi[n + 2] == epi[n + 4] == Instr(LEAVE_S, Target(EndFinallyPos(p, code)))
            && epi[n + 3] == WithToken(CALL, p.tokens.logException)
            && epi[n + 5] == Bare(ENDFINALLY)
            && (p.isVoid ==> epi[n + 6] == Bare(RET))
            && (!p.isVoid ==> epi[n + 6] == LoadLocal(ReturnLocal(p)) && epi[n + 7] == Bare(RET))
  {
    hide EndBlock, EndFinallyPos, StoreLocal, LoadLocal;
  }

  lemma EpilogueAt(p: Plan, o: Program, w: Program)
    requires Rewriting(p, o, w)
    ensures var c := CatchPos(p, o.code);
            && c + 1 < |w.code| && w.code[c] == StoreLocal(ExceptionLocal(p)) && w.code[c + 1] == Bare(RETHROW)
    ensures HoldsOps(w, EndTryPos(p, o.code), EndBlock(p))
    ensures var e := EndLeavePos(p, o.code);
            && e + 4 < |w.code|
            && w.code[e] == w.code[e + 2] == Instr(LEAVE_S, Target(e + 3))
            && w.code[e + 1] == WithToken(CALL, p.tokens.logException)
            && w.code[e + 3] == Bare(ENDFINALLY)
            && (p.isVoid ==> w.code[e + 4] == Bare(RET))
            && (!p.isVoid ==> e + 5 < |w.code| && w.code[e + 4] == LoadLocal(ReturnLocal(p))
                              && w.code[e + 5] == Bare(RET))
  {
    hide Rewriting, CatchPos, EndBlock, StoreLocal, LoadLocal, Epilogue;
    var n := |EndBlock(p)|;
    EpilogueShape(p, o.code);
    var d := EndTryPos(p, o.code);
    forall k: nat | k < n ensures d + k < |w.code| && w.code[d + k] == EndBlock(p)[k].i {
      EpilogueIndex(p, o, w, 2 + k);
    }
    EpilogueIndex(p, o, w, 0);
    EpilogueIndex(p, o, w, 1);
    EpilogueIndex(p, o, w, n + 2);
    EpilogueIndex(p, o, w, n + 3);
    EpilogueIndex(p, o, w, n + 4);
    EpilogueIndex(p, o, w, n + 5);
    EpilogueIndex(p, o, w, n + 6);
    if !p.isVoid {
      EpilogueIndex(p, o, w, n + 7);
    }
  }

  // ---- the prologue

  /** Every injected instruction is typed, in both blocks. */
  ghost predicate BlocksTyped(p: Plan, oracle: Oracle) {
    && BlockOk(p.localCount, SlotCount(p), oracle, BeginBlock(p))
    && BlockOk(p.localCount, SlotCount(p), oracle, EndBlock(p))
  }

  lemma ProloguePasses(p: Plan, o: Program, w: Program, q: nat, i: nat)
    requires Rewriting(p, o, w) && BodyOk(o) && q < BodyStart(p) && i < |w.clauses|
    ensures i < |o.clauses| ==> !InTry(w.clauses[i], q)
    ensures Passes(w, i, q, NodePos(p, o.code, 0))
  {
    hide BeginBlock, EndBlock, NodePos, NewClauses, CatchPos, BodyOk, CodeRewritten;
    BodyRegions(o);
    LayoutOrder(p, o, w);
    if i < |o.clauses| {
      HandlerInside(p, o, w, i);
    }
  }

  /** The first injected try region is a guarded block. */
  lemma BeginGuarded(p: Plan, o: Program, w: Program, oracle: Oracle)
    requires Rewriting(p, o, w) && BodyOk(o) && CatchesAll(oracle, |o.clauses|)
    ensures Guarded(p, w, 0, BeginBlock(p), |o.clauses|, NodePos(p, o.code, 0), [])
  {
    hide BeginBlock, EndBlock, NodePos, NewClauses, CatchPos, BodyOk, CodeRewritten, HoldsOps, InTry, Passes;
    var b, n, t := |BeginBlock(p)|, |o.clauses|, NodePos(p, o.code, 0);
    LayoutOrder(p, o, w);
    PrologueAt(p, o, w);
    forall i | 0 <= i < |w.clauses| ensures Passes(w, i, b, t) {
      ProloguePasses(p, o, w, b, i);
    }
    FinallyIs(w, b, t, 0, |w.clauses|);
    var b2 := b + 2;
    forall i | 0 <= i < |w.clauses| ensures Passes(w, i, b2, t) {
      ProloguePasses(p, o, w, b2, i);
    }
    FinallyIs(w, b2, t, 0, |w.clauses|);
  }

  lemma BeginCaught(p: Plan, o: Program, w: Program, oracle: Oracle, env: Env, exc: Val, q: nat)
    requires Rewriting(p, o, w) && BodyOk(o) && CatchesAll(oracle, |o.clauses|) && q < |BeginBlock(p)|
    ensures FindHandler(w, oracle, env, exc, q, 0) == |o.clauses|
  {
    hide BeginBlock, EndBlock, NodePos, NewClauses, CatchPos, BodyOk, CodeRewritten, InTry, Passes, Takes;
    var n := |o.clauses|;
    LayoutOrder(p, o, w);
    forall i | 0 <= i < n ensures !Catches(w, oracle, i, env, exc, q) {
      ProloguePasses(p, o, w, q, i);
    }
    BeginCovers(p, o.code, q);
    AddedTakes(p, o, w, oracle, n, env, exc);
    HandlerIff(w, oracle, env, exc, q, 0, n);
  }

  lemma AddedTakes(p: Plan, o: Program, w: Program, oracle: Oracle, i: nat, env: Env, exc: Val)
    requires Rewriting(p, o, w) && CatchesAll(oracle, |o.clauses|) && |o.clauses| <= i < |w.clauses|
    ensures Takes(w, oracle, i, env, exc)
  {
    hide CodeRewritten, WellFormed;
  }

  lemma BeginCovers(p: Plan, code: Code, q: nat)
    requires q < |BeginBlock(p)|
    ensures InTry(BeginClause(p, code), q)
  {
    hide BeginBlock;
  }

  /** What holds when control reaches the body: the frame after the first guarded block. */
  function AfterBegin(p: Plan, oracle: Oracle, f: Frame): Frame
    requires LogReturns(p, oracle) && BlocksTyped(p, oracle) && |f.slots| == SlotCount(p) && f.stack == []
  {
    BlockRuns(p.localCount, oracle, BeginBlock(p), 0, f);
    AfterBlock(p, oracle, RunOps(p.localCount, oracle, BeginBlock(p), 0, f))
  }

  lemma PrologueRuns(p: Plan, o: Program, w: Program, oracle: Oracle, f: Frame) returns (m: nat)
    requires Rewriting(p, o, w) && BodyOk(o) && CatchesAll(oracle, |o.clauses|)
    requires LogReturns(p, oracle) && BlocksTyped(p, oracle) && |f.slots| == SlotCount(p) && f.stack == []
    ensures Steps(w, oracle, StateOf(f, 0, []), m)
            == StateOf(AfterBegin(p, oracle, f), NodePos(p, o.code, 0), [])
  {
    hide BeginBlock, EndBlock, NodePos, NewClauses, CodeRewritten, RunOps, Guarded, FindHandler, Steps;
    BlockRuns(p.localCount, oracle, BeginBlock(p), 0, f);
    BeginGuarded(p, o, w, oracle);
    FailsInside(p.localCount, oracle, BeginBlock(p), 0, f);
    var r := RunOps(p.localCount, oracle, BeginBlock(p), 0, f);
    if r.Failed? {
      BeginCaught(p, o, w, oracle, r.f.env, r.exc, r.at);
    }
    OrderKept(p, o.code, 0, 0);
    m := GuardedRuns(p, w, oracle, 0, BeginBlock(p), |o.clauses|, NodePos(p, o.code, 0), [], f);
  }

  // ---- the epilogue

  /** What holds after the EndMethod region. */
  function AfterEnd(p: Plan, oracle: Oracle, f: Frame): Frame
    requires LogReturns(p, oracle) && BlocksTyped(p, oracle) && |f.slots| == SlotCount(p) && f.stack == []
  {
    BlockRuns(p.localCount, oracle, EndBlock(p), 0, f);
    AfterBlock(p, oracle, RunOps(p.localCount, oracle, EndBlock(p), 0, f))
  }

  /** Original clauses whose try region ended at the end of the body now reach over everything behind it. */
  predicate Overreaches(o: Program, i: nat)
    requires i < |o.clauses|
  {
    o.clauses[i].tryEnd == |o.code|
  }

  /** None of these takes this exception. */
  predicate PassesOver(o: Program, oracle: Oracle, env: Env, exc: Val) {
    forall i :: 0 <= i < |o.clauses| && Overreaches(o, i) ==> !Takes(o, oracle, i, env, exc)
  }

  /** What covers a position behind the body, in front of the final return. */
  lemma BehindBody(p: Plan, o: Program, w: Program, oracle: Oracle, q: nat, i: nat)
    requires Rewriting(p, o, w) && BodyOk(o) && i < |o.clauses|
    requires CatchPos(p, o.code) <= q < TotalSize(p, o.code)
    ensures i < |w.clauses| && InTry(w.clauses[i], q) == Overreaches(o, i)
    ensures forall env, exc :: Takes(w, oracle, i, env, exc) == Takes(o, oracle, i, env, exc)
  {
    hide BeginBlock, EndBlock, NodePos, NewClauses, CatchPos, BodyOk, CodeRewritten, TotalSize;
    BodyRegions(o);
    HandlerInside(p, o, w, i);
    BeginsInside(p, o, w, i);
    RegionsKept(p, o, w, i, 0);
  }

  lemma BeginsInside(p: Plan, o: Program, w: Program, i: nat)
    requires Rewriting(p, o, w) && RegionsOk(o) && i < |o.clauses|
    ensures i < |w.clauses| && w.clauses[i].tryBegin < CatchPos(p, o.code)
  {
    hide BeginBlock, EndBlock, NodePos, CatchPos, CodeRewritten, WellFormed;
    var c := o.clauses[i];
    assert ClauseOk(o, c);
    NewClauseAt(p, o, w, i);
    BeforeTheEnd(p, o.code, c.tryBegin);
  }

  lemma EpiloguePasses(p: Plan, o: Program, w: Program, oracle: Oracle, q: nat, i: nat)
    requires Rewriting(p, o, w) && BodyOk(o) && i < |w.clauses|
    requires EndTryPos(p, o.code) <= q <= EndFinallyPos(p, o.code)
    ensures i == |o.clauses| ==> !InTry(w.clauses[i], q)
    ensures Passes(w, i, q, EndFinallyPos(p, o.code))
  {
    hide BeginBlock, EndBlock, NodePos, NewClauses, EntryPos, BodyOk, CodeRewritten;
    LayoutOrder(p, o, w);
    if i < |o.clauses| {
      BehindBody(p, o, w, oracle, q, i);
      BehindBody(p, o, w, oracle, EndFinallyPos(p, o.code), i);
    }
  }

  /** The EndMethod region is a guarded block inside the running finally handler. */
  lemma EndGuarded(p: Plan, o: Program, w: Program, oracle: Oracle, pending: Pending)
    requires Rewriting(p, o, w) && BodyOk(o) && CatchesAll(oracle, |o.clauses|)
    ensures Guarded(p, w, EndTryPos(p, o.code), EndBlock(p), |o.clauses| + 1, EndFinallyPos(p, o.code),
                    [InFinally(|o.clauses| + 3, pending)])
  {
    hide BeginBlock, EndBlock, NodePos, NewClauses, EntryPos, BodyOk, CodeRewritten, HoldsOps, InTry, Passes;
    var t, e := EndFinallyPos(p, o.code), EndLeavePos(p, o.code);
    LayoutOrder(p, o, w);
    EpilogueAt(p, o, w);
    forall i | 0 <= i < |w.clauses| ensures Passes(w, i, e, t) {
      EpiloguePasses(p, o, w, oracle, e, i);
    }
    FinallyIs(w, e, t, 0, |w.clauses|);
    var e2 := e + 2;
    forall i | 0 <= i < |w.clauses| ensures Passes(w, i, e2, t) {
      EpiloguePasses(p, o, w, oracle, e2, i);
    }
    FinallyIs(w, e2, t, 0, |w.clauses|);
  }

  /** An exception of the EndMethod region is logged if and only if no overreaching clause takes it first. */
  lemma EndCaughtIff(p: Plan, o: Program, w: Program, oracle: Oracle, env: Env, exc: Val, q: nat)
    requires Rewriting(p, o, w) && BodyOk(o) && CatchesAll(oracle, |o.clauses|)
    requires EndTryPos(p, o.code) <= q < EndTryPos(p, o.code) + |EndBlock(p)|
    ensures FindHandler(w, oracle, env, exc, q, 0) == |o.clauses| + 1 <==> PassesOver(o, oracle, env, exc)
  {
    hide BeginBlock, EndBlock, NodePos, NewClauses, EntryPos, BodyOk, CodeRewritten, InTry, Passes, Takes, Overreaches;
    var n := |o.clauses|;
    LayoutOrder(p, o, w);
    EndsBehind(p, o.code, q);
    forall i | 0 <= i < n
      ensures Catches(w, oracle, i, env, exc, q) <==> Overreaches(o, i) && Takes(o, oracle, i, env, exc)
    {
      BehindBody(p, o, w, oracle, q, i);
    }
    EpiloguePasses(p, o, w, oracle, q, n);
    EndCovers(p, o.code, q);
    AddedTakes(p, o, w, oracle, n + 1, env, exc);
    HandlerIff(w, oracle, env, exc, q, 0, n + 1);
  }

  lemma EndsBehind(p: Plan, code: Code, q: nat)
    requires EndTryPos(p, code) <= q < EndTryPos(p, code) + |EndBlock(p)|
    ensures CatchPos(p, code) <= q < TotalSize(p, code) && q <= EndFinallyPos(p, code)
  {
    hide BeginBlock, EndBlock, EntryPos;
  }

  lemma EndCovers(p: Plan, code: Code, q: nat)
    requires EndTryPos(p, code) <= q < EndLeavePos(p, code)
    ensures InTry(EndClause(p, code), q)
  {
    hide BeginBlock, EndBlock, EntryPos;
  }

  // ---- from the body to the finally handler

  /** Inside the finally handler, about to run the EndMethod region. */
  function AtEnd(p: Plan, o: Program, f: Frame, pending: Pending): State {
    StateOf(f, EndTryPos(p, o.code), [InFinally(|o.clauses| + 3, pending)])
  }

  function Done4(o: Program): nat { |o.clauses| + 4 }

  /** An exception that left the body is stored and rethrown, which starts the finally handler. */
  lemma CaughtRuns(p: Plan, o: Program, w: Program, oracle: Oracle, env: Env, exc: Val, slots: seq<Val>,
                   trace: seq<Event>)
    requires Rewriting(p, o, w) && BodyOk(o) && CatchesAll(oracle, |o.clauses|) && |slots| == SlotCount(p)
    requires PassesOver(o, oracle, env, exc)
    ensures var x := ExceptionLocal(p) - p.localCount;
            Steps(w, oracle, Caught(p, o, env, exc, slots, trace), 2)
            == AtEnd(p, o, Frame(env, [], slots[x := exc], trace), Unwind(exc, CatchPos(p, o.code) + 1, Done4(o)))
  {
    hide BeginBlock, EndBlock, NodePos, NewClauses, EntryPos, BodyOk, CodeRewritten, HoldsOps, InTry, LocalUseOf,
      StoreLocal, CatchPos;
    var c := CatchPos(p, o.code);
    var x := ExceptionLocal(p) - p.localCount;
    EpilogueAt(p, o, w);
    LayoutOrder(p, o, w);
    StoreIsStore(w, ExceptionLocal(p));
    var s := Caught(p, o, env, exc, slots, trace);
    var s1 := Running(c + 1, [], env, slots[x := exc], s.ctx, trace);
    assert Step(w, oracle, s) == s1;
    RethrowEntersFinally(p, o, w, oracle, s1, exc);
    hide Step;
    StepsUnfold(w, oracle, s, 2);
    StepsUnfold(w, oracle, s1, 1);
  }

  /**
   Otherwise the exception is taken by an overreaching clause of the body.
   */
  lemma TakenByOverreaching(p: Plan, o: Program, w: Program, oracle: Oracle, env: Env, exc: Val) returns (i: nat)
    requires Rewriting(p, o, w) && BodyOk(o) && CatchesAll(oracle, |o.clauses|) && !PassesOver(o, oracle, env, exc)
    ensures FindHandler(w, oracle, env, exc, CatchPos(p, o.code) + 1, 0) == i < |o.clauses|
    ensures Overreaches(o, i) && Takes(o, oracle, i, env, exc)
    ensures i < |w.clauses| && w.clauses[i].handlerBegin < CatchPos(p, o.code)
  {
    hide BeginBlock, EndBlock, NodePos, NewClauses, EntryPos, BodyOk, CodeRewritten, InTry, Takes, Overreaches,
      CatchPos, FindHandler, PassesOver;
    var n, q := |o.clauses|, CatchPos(p, o.code) + 1;
    LayoutOrder(p, o, w);
    RethrowBehind(p, o.code);
    FinallyCovers(p, o.code);
    AddedTakes(p, o, w, oracle, n + 3, env, exc);
    RethrownIff(p, o, w, oracle, env, exc);
    FoundCatches(w, oracle, env, exc, q, 0);
    i := FindHandler(w, oracle, env, exc, q, 0);
    assert Catches(w, oracle, n + 3, env, exc, q);
    BehindBody(p, o, w, oracle, q, i);
    BodyRegions(o);
    RegionsKept(p, o, w, i, 0);
    BeforeTheEnd(p, o.code, o.clauses[i].handlerBegin);
  }

  lemma RethrowEnters(w: Program, oracle: Oracle, s: State, exc: Val, i: nat)
    requires WellFormed(w) && s.Running? && s.pc < |w.code| && w.code[s.pc] == Bare(RETHROW)
    requires s.ctx != [] && s.ctx[|s.ctx| - 1].InCatch? && s.ctx[|s.ctx| - 1].exc == exc
    requires FindHandler(w, oracle, s.env, exc, s.pc, 0) == i < |w.clauses|
    ensures Step(w, oracle, s).Running? && Step(w, oracle, s).pc == w.clauses[i].handlerBegin
  {
    hide WellFormed, Trim, FindHandler;
  }

  /**
   The run then differs: two steps on, control is back in the body, at the handler of that clause, instead of in
   front of EndMethod's region. Together with the lemma above: EndMethod is reached if and only if the exception
   passes over.
   */
  lemma CaughtAgain(p: Plan, o: Program, w: Program, oracle: Oracle, env: Env, exc: Val, slots: seq<Val>,
                    trace: seq<Event>)
    requires Rewriting(p, o, w) && BodyOk(o) && CatchesAll(oracle, |o.clauses|) && |slots| == SlotCount(p)
    requires !PassesOver(o, oracle, env, exc)
    ensures var x := Steps(w, oracle, Caught(p, o, env, exc, slots, trace), 2);
            && x.Running? && x.pc < CatchPos(p, o.code)
            && exists i: nat :: i < |o.clauses| && i < |w.clauses| && Overreaches(o, i)
                                && Takes(o, oracle, i, env, exc) && x.pc == w.clauses[i].handlerBegin
  {
    hide BeginBlock, EndBlock, NodePos, NewClauses, EntryPos, BodyOk, CodeRewritten, HoldsOps, InTry, LocalUseOf,
      StoreLocal, CatchPos, PassesOver, FindHandler, Takes, Overreaches, Trim;
    var c := CatchPos(p, o.code);
    EpilogueAt(p, o, w);
    LayoutOrder(p, o, w);
    StoreIsStore(w, ExceptionLocal(p));
    var s := Caught(p, o, env, exc, slots, trace);
    var s1 := Running(c + 1, [], env, slots[ExceptionLocal(p) - p.localCount := exc], s.ctx, trace);
    assert Step(w, oracle, s) == s1;
    var i := TakenByOverreaching(p, o, w, oracle, env, exc);
    RethrowEnters(w, oracle, s1, exc, i);
    hide Step;
    StepsUnfold(w, oracle, s, 2);
    StepsUnfold(w, oracle, s1, 1);
  }

  lemma StoreIsStore(w: Program, index: nat)
    requires w.localBase <= index < 0x1_0000
    ensures LocalUseOf(StoreLocal(index)) == Store(index) && UsesSlot(w, StoreLocal(index))
    ensures LocalUseOf(LoadLocal(index)) == Load(index) && UsesSlot(w, LoadLocal(index))
    ensures LocalUseOf(LoadLocalAddress(index)) == Address(index) && UsesSlot(w, LoadLocalAddress(index))
  {
  }

  lemma RethrowEntersFinally(p: Plan, o: Program, w: Program, oracle: Oracle, s: State, exc: Val)
    requires Rewriting(p, o, w) && BodyOk(o) && CatchesAll(oracle, |o.clauses|) && s.Running?
    requires PassesOver(o, oracle, s.env, exc)
    requires s.pc == CatchPos(p, o.code) + 1 && s.ctx == [InCatch(|o.clauses| + 2, exc)] && s.stack == []
    ensures Step(w, oracle, s)
            == s.(pc := EndTryPos(p, o.code),
                  ctx := [InFinally(|o.clauses| + 3, Unwind(exc, CatchPos(p, o.code) + 1, Done4(o)))])
  {
    hide BeginBlock, EndBlock, NodePos, NewClauses, EntryPos, BodyOk, CodeRewritten, HoldsOps, InTry, CatchPos, Trim,
      PassesOver, FindHandler;
    EpilogueAt(p, o, w);
    LayoutOrder(p, o, w);
    RethrownIff(p, o, w, oracle, s.env, exc);
    CatchContextEnds(p, o, w, exc);
  }

  /** The rethrown exception starts the finally handler if and only if no overreaching clause takes it first. */
  lemma RethrownIff(p: Plan, o: Program, w: Program, oracle: Oracle, env: Env, exc: Val)
    requires Rewriting(p, o, w) && BodyOk(o) && CatchesAll(oracle, |o.clauses|)
    ensures FindHandler(w, oracle, env, exc, CatchPos(p, o.code) + 1, 0) == |o.clauses| + 3
            <==> PassesOver(o, oracle, env, exc)
  {
    hide BeginBlock, EndBlock, NodePos, NewClauses, EntryPos, BodyOk, CodeRewritten, InTry, Takes, Overreaches,
      CatchPos;
    var n, q := |o.clauses|, CatchPos(p, o.code) + 1;
    LayoutOrder(p, o, w);
    RethrowBehind(p, o.code);
    forall i | 0 <= i < n
      ensures Catches(w, oracle, i, env, exc, q) <==> Overreaches(o, i) && Takes(o, oracle, i, env, exc)
    {
      BehindBody(p, o, w, oracle, q, i);
    }
    FinallyCovers(p, o.code);
    AddedTakes(p, o, w, oracle, n + 3, env, exc);
    HandlerIff(w, oracle, env, exc, q, 0, n + 3);
  }

  lemma RethrowBehind(p: Plan, code: Code)
    ensures CatchPos(p, code) + 1 < TotalSize(p, code)
    ensures !InTry(BeginClause(p, code), CatchPos(p, code) + 1) && !InTry(EndClause(p, code), CatchPos(p, code) + 1)
    ensures !InTry(CatchClause(p, code), CatchPos(p, code) + 1)
  {
    hide BeginBlock, EndBlock;
    RetCountGap(p, code, 0, |code|);
  }

  lemma FinallyCovers(p: Plan, code: Code)
    ensures InTry(FinallyClause(p, code), CatchPos(p, code) + 1)
  {
    hide BeginBlock, EndBlock, EntryPos;
  }

  lemma CatchContextEnds(p: Plan, o: Program, w: Program, exc: Val)
    requires Rewriting(p, o, w)
    ensures Trim(w, [InCatch(|o.clauses| + 2, exc)], EndTryPos(p, o.code)) == []
  {
    hide BeginBlock, EndBlock, NodePos, NewClauses, EntryPos, CodeRewritten;
    LayoutOrder(p, o, w);
    assert [InCatch(|o.clauses| + 2, exc)][..0] == [];
  }

  /** What the result local holds after a return: the value, unless control was sent past the store of it. */
  function SlotsAfterReturn(p: Plan, slots: seq<Val>, v: seq<Val>, sent: bool): (r: seq<Val>)
    requires |slots| == SlotCount(p)
    ensures |r| == SlotCount(p)
  {
    if p.isVoid || sent || v == [] then slots else slots[0 := v[0]]
  }

  /** A return of the body, now a leave, starts the finally handler. */
  lemma ReturnRuns(p: Plan, o: Program, w: Program, oracle: Oracle, s: State, sent: bool, slots: seq<Val>,
                   before: seq<Event>)
    returns (m: nat)
    requires Rewriting(p, o, w) && BodyOk(o) && StateOk(o, s) && |slots| == SlotCount(p)
    requires s.pc < |o.code| && o.code[s.pc].opcode == RET && Step(o, oracle, s).Done?
    ensures Step(o, oracle, s).outcome.Returned? && Step(o, oracle, s).history == s.trace
    ensures Step(o, oracle, s).outcome.env == s.env
    ensures |Step(o, oracle, s).outcome.stack| == if p.isVoid then 0 else 1
    ensures Steps(w, oracle, Lift(p, o, s, sent, slots, before), m)
            == AtEnd(p, o, Frame(s.env, [], SlotsAfterReturn(p, slots, Step(o, oracle, s).outcome.stack, sent),
                                 before + s.trace),
                     LeaveTo(ReturnPos(p, o.code), NodePos(p, o.code, s.pc), Done4(o)))
  {
    hide BeginBlock, EndBlock, NewClauses, EntryPos, HoldsOps, InTry, LocalUseOf, StoreLocal, Trim, InHandler,
      SwitchesOk;
    var k := s.pc;
    var q := NodePos(p, o.code, k);
    assert NodeRewritten(p, o.code, w.code, k) && InstrOk(o, k) && OperandOk(o.code, k);
    var x := Lift(p, o, s, sent, slots, before);
    var x1 := if p.isVoid || sent then x
              else x.(pc := q, stack := s.stack[..|s.stack| - 1], slots := slots[0 := s.stack[|s.stack| - 1]]);
    BodyRegions(o);
    LeaveEntersFinally(p, o, w, oracle, x1, k, s.ctx);
    if p.isVoid || sent {
      m := 1;
    } else {
      StoreIsStore(w, ReturnLocal(p));
      assert Step(w, oracle, x) == x1;
      hide Step;
      StepsUnfold(w, oracle, x, 2);
      m := 2;
    }
    hide Step;
    StepsUnfold(w, oracle, x1, 1);
  }

  lemma LeaveEntersFinally(p: Plan, o: Program, w: Program, oracle: Oracle, x: State, k: nat, ctx: seq<Ctx>)
    requires Rewriting(p, o, w) && RegionsOk(o) && k < |o.code| && o.code[k].opcode == RET
    requires x.Running? && x.pc == NodePos(p, o.code, k) && CtxsOk(o, ctx) && x.ctx == NewCtx(p, o, ctx)
    ensures Step(w, oracle, x)
            == x.(pc := EndTryPos(p, o.code), stack := [],
                  ctx := [InFinally(|o.clauses| + 3, LeaveTo(ReturnPos(p, o.code), x.pc, Done4(o)))])
  {
    hide BeginBlock, EndBlock, NodePos, NewClauses, EntryPos, RegionsOk, HoldsOps, InTry, CatchPos, Trim, NewCtx;
    var n, q, t := |o.clauses|, NodePos(p, o.code, k), ReturnPos(p, o.code);
    assert NodeRewritten(p, o.code, w.code, k);
    LayoutOrder(p, o, w);
    forall i | 0 <= i < n + 3 ensures Passes(w, i, q, t) {
      ReturnPasses(p, o, w, k, i);
    }
    FinallyLeft(p, o, w, k);
    FinallyIs(w, q, t, 0, n + 3);
    TrimOutside(p, o, w, ctx, EndTryPos(p, o.code));
  }

  lemma ReturnPasses(p: Plan, o: Program, w: Program, k: nat, i: nat)
    requires Rewriting(p, o, w) && RegionsOk(o) && k < |o.code| && o.code[k].opcode == RET
    requires i < |o.clauses| + 3 && i < |w.clauses|
    ensures Passes(w, i, NodePos(p, o.code, k), ReturnPos(p, o.code))
  {
    hide BeginBlock, EndBlock, NodePos, NewClauses, EntryPos, CodeRewritten, InstrOk, WellFormed;
    LayoutOrder(p, o, w);
    if i < |o.clauses| {
      RegionsKept(p, o, w, i, k);
      assert ClauseOk(o, o.clauses[i]);
    }
  }

  lemma FinallyLeft(p: Plan, o: Program, w: Program, k: nat)
    requires Rewriting(p, o, w) && RegionsOk(o) && k < |o.code|
    ensures |o.clauses| + 3 < |w.clauses|
    ensures !Passes(w, |o.clauses| + 3, NodePos(p, o.code, k), ReturnPos(p, o.code))
  {
    hide BeginBlock, EndBlock, NodePos, NewClauses, EntryPos, CodeRewritten, RegionsOk, WellFormed;
    LayoutOrder(p, o, w);
    AddedClausesFromBody(p, o, w, k);
  }
}
