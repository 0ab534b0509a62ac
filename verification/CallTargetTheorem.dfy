/** CallTarget rewriting preserves meaning: the whole run of a rewritten method, from the run of its body. */
module CallTargetTheorem {
  import opened OpCodes
  import opened ILCode
  import opened ILMachine
  import opened CallTargetCode
  import opened StraightLine
  import opened CallTargetBody
  import opened CallTargetMeaning

  // ---- the way out

  /** Where a finally handler of the rewriting goes when it is the last one. */
  predicate LastPending(p: Plan, o: Program, pending: Pending) {
    pending.next == Done4(o) && (pending.LeaveTo? ==> pending.target == ReturnPos(p, o.code))
  }

  /** How the method ends, once EndMethod has left the frame f. */
  function Finished(p: Plan, f: Frame, pending: Pending): State
    requires |f.slots| == SlotCount(p)
  {
    match pending
    case Unwind(exc, _, _) => Done(Thrown(f.env, exc), f.trace)
    case LeaveTo(_, _, _) => Done(Returned(f.env, if p.isVoid then [] else [f.slots[0]]), f.trace)
  }

  lemma ResumeEnds(p: Plan, o: Program, w: Program, oracle: Oracle, f: Frame, pending: Pending)
    requires Rewriting(p, o, w) && LastPending(p, o, pending) && f.stack == []
    ensures Step(w, oracle, StateOf(f, EndFinallyPos(p, o.code), [InFinally(|o.clauses| + 3, pending)]))
            == match pending
               case Unwind(exc, _, _) => Done(Thrown(f.env, exc), f.trace)
               case LeaveTo(_, _, _) => StateOf(f, ReturnPos(p, o.code), [])
  {
    hide BeginBlock, EndBlock, NodePos, NewClauses, EntryPos, CodeRewritten, InHandler, EndLeavePos, CatchPos;
    LayoutOrder(p, o, w);
    EpilogueAt(p, o, w);
    EndsFollow(p, o.code);
    var ctx := [InFinally(|o.clauses| + 3, pending)];
    assert ctx[..0] == [];
  }

  lemma EndsFollow(p: Plan, code: Code)
    ensures EndFinallyPos(p, code) == EndLeavePos(p, code) + 3 && ReturnPos(p, code) == EndLeavePos(p, code) + 4
  {
  }

  lemma ReturnEnds(p: Plan, o: Program, w: Program, oracle: Oracle, f: Frame) returns (m: nat)
    requires Rewriting(p, o, w) && f.stack == [] && |f.slots| == SlotCount(p)
    ensures Steps(w, oracle, StateOf(f, ReturnPos(p, o.code), []), m)
            == Done(Returned(f.env, if p.isVoid then [] else [f.slots[0]]), f.trace)
  {
    hide BeginBlock, EndBlock, NodePos, NewClauses, EntryPos, CodeRewritten, EndLeavePos, CatchPos, StoreLocal,
      LoadLocal, LocalUseOf;
    EpilogueAt(p, o, w);
    EndsFollow(p, o.code);
    var r := ReturnPos(p, o.code);
    var s := StateOf(f, r, []);
    if p.isVoid {
      m := 1;
      RetUsesNoSlot(w);
      assert Step(w, oracle, s) == Done(Returned(f.env, []), f.trace);
    } else {
      m := 2;
      StoreIsStore(w, ReturnLocal(p));
      RetUsesNoSlot(w);
      var s1 := s.(pc := r + 1, stack := [f.slots[0]]);
      assert Step(w, oracle, s) == s1;
      assert Step(w, oracle, s1) == Done(Returned(f.env, [f.slots[0]]), f.trace);
      hide Step;
      StepsUnfold(w, oracle, s1, 1);
    }
    hide Step;
    StepsUnfold(w, oracle, s, m);
  }

  lemma RetUsesNoSlot(w: Program)
    ensures !UsesSlot(w, Bare(RET))
  {
  }

  /** If the EndMethod region fails in this frame, no overreaching clause takes its exception. */
  predicate EndPasses(p: Plan, o: Program, oracle: Oracle, f: Frame) {
    var r := RunOps(p.localCount, oracle, EndBlock(p), 0, f);
    r.Failed? ==> PassesOver(o, oracle, r.f.env, r.exc)
  }

  lemma EndCaught(p: Plan, o: Program, w: Program, oracle: Oracle, f: Frame)
    requires Rewriting(p, o, w) && BodyOk(o) && CatchesAll(oracle, |o.clauses|) && EndPasses(p, o, oracle, f)
    ensures CaughtBy(w, oracle, EndTryPos(p, o.code), RunOps(w.localBase, oracle, EndBlock(p), 0, f), |o.clauses| + 1)
  {
    hide BeginBlock, EndBlock, NodePos, NewClauses, CodeRewritten, RunOps, BodyOk, EndTryPos, PassesOver, FindHandler;
    var r := RunOps(p.localCount, oracle, EndBlock(p), 0, f);
    FailsInside(p.localCount, oracle, EndBlock(p), 0, f);
    if r.Failed? {
      EndCaughtIff(p, o, w, oracle, r.f.env, r.exc, EndTryPos(p, o.code) + r.at);
    }
  }

  /** From the start of the EndMethod region to the end of the method. */
  lemma EndRuns(p: Plan, o: Program, w: Program, oracle: Oracle, f: Frame, pending: Pending) returns (m: nat)
    requires Rewriting(p, o, w) && BodyOk(o) && CatchesAll(oracle, |o.clauses|)
    requires LogReturns(p, oracle) && BlocksTyped(p, oracle) && |f.slots| == SlotCount(p) && f.stack == []
    requires LastPending(p, o, pending) && EndPasses(p, o, oracle, f)
    ensures |AfterEnd(p, oracle, f).slots| == SlotCount(p)
    ensures Steps(w, oracle, AtEnd(p, o, f, pending), m) == Finished(p, AfterEnd(p, oracle, f), pending)
  {
    hide BeginBlock, EndBlock, NodePos, NewClauses, CodeRewritten, RunOps, Guarded, CaughtBy, Step, WellFormed, BodyOk,
      EndPasses;
    BlockRuns(p.localCount, oracle, EndBlock(p), 0, f);
    EndGuarded(p, o, w, oracle, pending);
    EndCaught(p, o, w, oracle, f);
    var n := |o.clauses|;
    var ctx := [InFinally(n + 3, pending)];
    var m1 := GuardedRuns(p, w, oracle, EndTryPos(p, o.code), EndBlock(p), n + 1, EndFinallyPos(p, o.code), ctx, f);
    var g := AfterEnd(p, oracle, f);
    var s := AtEnd(p, o, f, pending);
    var s1 := StateOf(g, EndFinallyPos(p, o.code), ctx);
    ResumeEnds(p, o, w, oracle, g, pending);
    StepsUnfold(w, oracle, s1, 1);
    StepsCompose(w, oracle, s, m1, 1);
    m := m1 + 1;
    if pending.LeaveTo? {
      var m2 := ReturnEnds(p, o, w, oracle, g);
      StepsCompose(w, oracle, s, m1 + 1, m2);
      m := m1 + 1 + m2;
    }
  }

  // ---- the body, any number of steps

  /** What the exception local and the result local hold once the body has ended. */
  function SlotsAfterBody(p: Plan, slots: seq<Val>, outcome: Outcome, sent: bool): (r: seq<Val>)
    requires |slots| == SlotCount(p)
    ensures |r| == SlotCount(p)
  {
    match outcome
    case Returned(_, v) => SlotsAfterReturn(p, slots, v, sent)
    case Thrown(_, exc) => slots[ExceptionLocal(p) - p.localCount := exc]
  }

  /** Whether control was sent to where a run stands after n steps, or to where it stood when it ended. */
  function LastSent(o: Program, oracle: Oracle, s: State, sent: bool, n: nat): bool
    requires WellFormed(o)
    decreases n
  {
    if n == 0 || !s.Running? then sent
    else
      var r := Step(o, oracle, s);
      if r.Running? then LastSent(o, oracle, r, Sends(o, oracle, s), n - 1) else sent
  }

  /** The finally handler is about to run EndMethod, and what it goes on with. */
  ghost predicate ReachesEnd(p: Plan, o: Program, s: State, sent: bool, slots: seq<Val>, before: seq<Event>, r: State)
    requires |slots| == SlotCount(p) && r.Done?
  {
    exists pending: Pending :: EndsWith(p, o, s, sent, slots, before, r, pending)
  }

  ghost predicate EndsWith(p: Plan, o: Program, s: State, sent: bool, slots: seq<Val>, before: seq<Event>, r: State,
                           pending: Pending)
    requires |slots| == SlotCount(p) && r.Done?
  {
    && LastPending(p, o, pending) && pending.Unwind? == r.outcome.Thrown?
    && (pending.Unwind? ==> pending.exc == r.outcome.exc)
    && var f := Frame(r.outcome.env, [], SlotsAfterBody(p, slots, r.outcome, sent), before + r.history);
       s == AtEnd(p, o, f, pending)
  }

  /** An exception that ended the body is not taken by an overreaching clause. */
  predicate BodyPasses(o: Program, oracle: Oracle, r: State) {
    r.Done? && r.outcome.Thrown? ==> PassesOver(o, oracle, r.outcome.env, r.outcome.exc)
  }

  /** A body that has ended: its result or exception is stored and the finally handler runs. */
  lemma BodyEnds(p: Plan, o: Program, w: Program, oracle: Oracle, s: State, sent: bool, slots: seq<Val>,
                 before: seq<Event>)
    returns (m: nat)
    requires Rewriting(p, o, w) && BodyOk(o) && CatchesAll(oracle, |o.clauses|) && StateOk(o, s)
    requires |slots| == SlotCount(p) && Step(o, oracle, s).Done? && BodyPasses(o, oracle, Step(o, oracle, s))
    ensures ReachesEnd(p, o, Steps(w, oracle, Lift(p, o, s, sent, slots, before), m), sent, slots, before,
                       Step(o, oracle, s))
    ensures var r := Step(o, oracle, s).outcome;
            r.Returned? ==> |r.stack| == if o.isVoid then 0 else 1
  {
    hide BeginBlock, EndBlock, NodePos, NewClauses, CodeRewritten, Step, WellFormed, BodyOk, PcOf, CatchPos,
      EndTryPos, PassesOver;
    var x := Lift(p, o, s, sent, slots, before);
    var r := Step(o, oracle, s);
    if s.pc < |o.code| && o.code[s.pc].opcode == RET {
      m := ReturnRuns(p, o, w, oracle, s, sent, slots, before);
      var pending := LeaveTo(ReturnPos(p, o.code), NodePos(p, o.code, s.pc), Done4(o));
      assert EndsWith(p, o, Steps(w, oracle, x, m), sent, slots, before, r, pending);
    } else {
      StepKept(p, o, w, oracle, s, sent, slots, before);
      CaughtRuns(p, o, w, oracle, r.outcome.env, r.outcome.exc, slots, before + r.history);
      StepsUnfold(w, oracle, x, 3);
      m := 3;
      var pending := Unwind(r.outcome.exc, CatchPos(p, o.code) + 1, Done4(o));
      assert EndsWith(p, o, Steps(w, oracle, x, m), sent, slots, before, r, pending);
    }
  }

  /** n steps of the body are n steps of the rewriting, or the body ends and EndMethod is reached. */
  lemma {:induction false} BodyRuns(p: Plan, o: Program, w: Program, oracle: Oracle, s: State, sent: bool,
                                    slots: seq<Val>, before: seq<Event>, n: nat) returns (m: nat)
    requires Rewriting(p, o, w) && BodyOk(o) && CatchesAll(oracle, |o.clauses|) && StateOk(o, s)
    requires |slots| == SlotCount(p) && !Steps(o, oracle, s, n).Stuck? && BodyPasses(o, oracle, Steps(o, oracle, s, n))
    ensures var r := Steps(o, oracle, s, n);
            var y := Steps(w, oracle, Lift(p, o, s, sent, slots, before), m);
            var last := LastSent(o, oracle, s, sent, n);
            if r.Running? then m == n && StateOk(o, r) && y == Lift(p, o, r, last, slots, before)
            else ReachesEnd(p, o, y, last, slots, before, r)
                 && (r.outcome.Returned? ==> |r.outcome.stack| == if o.isVoid then 0 else 1)
    decreases n
  {
    hide Rewriting, Step, WellFormed, BodyOk, PcOf, ReachesEnd, Lift, BodyPasses, Sends;
    BothWellFormed(p, o, w);
    m := 0;
    if n > 0 {
      var x := Lift(p, o, s, sent, slots, before);
      var r := Step(o, oracle, s);
      StepsUnfold(o, oracle, s, n);
      if r.Done? {
        m := BodyEnds(p, o, w, oracle, s, sent, slots, before);
      } else {
        RunningStep(p, o, w, oracle, s, sent, slots, before);
        m := BodyRuns(p, o, w, oracle, r, Sends(o, oracle, s), slots, before, n - 1);
        LiftRunning(p, o, s, sent, slots, before);
        StepsUnfold(w, oracle, x, m + 1);
        m := m + 1;
      }
    }
  }

  lemma BothWellFormed(p: Plan, o: Program, w: Program)
    requires Rewriting(p, o, w)
    ensures WellFormed(o) && WellFormed(w)
  {
  }

  lemma LiftRunning(p: Plan, o: Program, s: State, sent: bool, slots: seq<Val>, before: seq<Event>)
    requires StateOk(o, s)
    ensures Lift(p, o, s, sent, slots, before).Running?
  {
  }

  lemma RunningStep(p: Plan, o: Program, w: Program, oracle: Oracle, s: State, sent: bool, slots: seq<Val>,
                    before: seq<Event>)
    requires Rewriting(p, o, w) && BodyOk(o) && CatchesAll(oracle, |o.clauses|) && StateOk(o, s)
    requires Step(o, oracle, s).Running?
    ensures StateOk(o, Step(o, oracle, s))
    ensures Step(w, oracle, Lift(p, o, s, sent, slots, before))
            == Lift(p, o, Step(o, oracle, s), Sends(o, oracle, s), slots, before)
  {
    hide CodeRewritten, NewClauses, Lift, BodyOk, PcOf, Sends;
    if s.pc < |o.code| && o.code[s.pc].opcode == RET {
      assert false by { RetNotRunning(o, oracle, s); }
    } else {
      hide Step;
      StepKept(p, o, w, oracle, s, sent, slots, before);
    }
  }

  lemma RetNotRunning(o: Program, oracle: Oracle, s: State)
    requires WellFormed(o) && s.Running? && s.pc < |o.code| && o.code[s.pc].opcode == RET && !UsesSlot(o, o.code[s.pc])
    ensures !Step(o, oracle, s).Running?
  {
  }

  // ---- the whole method

  /** A method is entered with its environment, an empty stack and locals set to null. */
  function Start(p: Plan, env: Env): Frame {
    Frame(env, [], seq(SlotCount(p), _ => Null), [])
  }

  function BodyStartState(env: Env): State {
    Running(0, [], env, [], [], [])
  }

  /** The frame in which EndMethod runs: what BeginMethod left, the body's events, its result or exception. */
  function BeforeEnd(p: Plan, oracle: Oracle, env: Env, body: State, sent: bool): (f: Frame)
    requires LogReturns(p, oracle) && BlocksTyped(p, oracle) && body.Done?
    ensures |f.slots| == SlotCount(p) && f.stack == []
  {
    var f1 := AfterBegin(p, oracle, Start(p, env));
    AfterBeginShape(p, oracle, Start(p, env));
    Frame(body.outcome.env, [], SlotsAfterBody(p, f1.slots, body.outcome, sent), f1.trace + body.history)
  }

  lemma AfterBeginShape(p: Plan, oracle: Oracle, f: Frame)
    requires LogReturns(p, oracle) && BlocksTyped(p, oracle) && |f.slots| == SlotCount(p) && f.stack == []
    ensures |AfterBegin(p, oracle, f).slots| == SlotCount(p) && AfterBegin(p, oracle, f).stack == []
  {
    hide BeginBlock, EndBlock, RunOps;
    BlockRuns(p.localCount, oracle, BeginBlock(p), 0, f);
  }

  lemma AfterEndShape(p: Plan, oracle: Oracle, f: Frame)
    requires LogReturns(p, oracle) && BlocksTyped(p, oracle) && |f.slots| == SlotCount(p) && f.stack == []
    ensures |AfterEnd(p, oracle, f).slots| == SlotCount(p) && AfterEnd(p, oracle, f).stack == []
  {
    hide BeginBlock, EndBlock, RunOps;
    BlockRuns(p.localCount, oracle, EndBlock(p), 0, f);
  }

  /**
   What a rewritten method does, in terms of its body alone: BeginMethod's region, the body once, EndMethod's
   region once; then the body's exception goes on, or the result local is returned.
   */
  function Wrapped(p: Plan, oracle: Oracle, env: Env, body: State, sent: bool): State
    requires LogReturns(p, oracle) && BlocksTyped(p, oracle) && body.Done?
  {
    var f2 := BeforeEnd(p, oracle, env, body, sent);
    var f3 := AfterEnd(p, oracle, f2);
    AfterEndShape(p, oracle, f2);
    match body.outcome
    case Thrown(_, exc) => Done(Thrown(f3.env, exc), f3.trace)
    case Returned(_, _) => Done(Returned(f3.env, if p.isVoid then [] else [f3.slots[0]]), f3.trace)
  }

  /** The run of the body inside the rewritten method: from the environment BeginMethod left. */
  function BodyRun(p: Plan, o: Program, oracle: Oracle, env: Env, n: nat): State
    requires WellFormed(o) && LogReturns(p, oracle) && BlocksTyped(p, oracle)
  {
    Steps(o, oracle, BodyStartState(AfterBegin(p, oracle, Start(p, env)).env), n)
  }

  /** Whether control was sent to the instruction that ended it; the prologue sends it to the first one. */
  function BodySent(p: Plan, o: Program, oracle: Oracle, env: Env, n: nat): bool
    requires WellFormed(o) && LogReturns(p, oracle) && BlocksTyped(p, oracle)
  {
    LastSent(o, oracle, BodyStartState(AfterBegin(p, oracle, Start(p, env)).env), true, n)
  }

  /** What is asked of body, rewriting and callbacks. */
  ghost predicate Setting(p: Plan, o: Program, w: Program, oracle: Oracle) {
    && Rewriting(p, o, w) && BodyOk(o) && CatchesExceptions(w, oracle, p.tokens.exceptionType)
    && LogReturns(p, oracle) && BlocksTyped(p, oracle)
  }

  /** A prologue, then the body from where the prologue leads. */
  lemma EntersBody(p: Plan, o: Program, w: Program, oracle: Oracle, env: Env) returns (m: nat)
    requires Setting(p, o, w, oracle)
    ensures var f1 := AfterBegin(p, oracle, Start(p, env));
            StateOk(o, BodyStartState(f1.env))
            && Steps(w, oracle, StateOf(Start(p, env), 0, []), m)
               == Lift(p, o, BodyStartState(f1.env), true, f1.slots, f1.trace)
  {
    hide BeginBlock, EndBlock, NodePos, EntryPos, NewClauses, CodeRewritten, Steps, BodyOk, AfterBegin;
    AddedCatch(p, o, w, oracle);
    AfterBeginShape(p, oracle, Start(p, env));
    m := PrologueRuns(p, o, w, oracle, Start(p, env));
    var f1 := AfterBegin(p, oracle, Start(p, env));
    assert f1.trace + [] == f1.trace;
  }

  /** A body that ends makes the rewritten method get to EndMethod's region. */
  lemma ReachesEndMethod(p: Plan, o: Program, w: Program, oracle: Oracle, env: Env, n: nat)
    returns (m: nat, pending: Pending)
    requires Setting(p, o, w, oracle)
    requires BodyRun(p, o, oracle, env, n).Done? && BodyPasses(o, oracle, BodyRun(p, o, oracle, env, n))
    ensures var body := BodyRun(p, o, oracle, env, n);
            && LastPending(p, o, pending) && pending.Unwind? == body.outcome.Thrown?
            && (pending.Unwind? ==> pending.exc == body.outcome.exc)
            && Steps(w, oracle, StateOf(Start(p, env), 0, []), m)
               == AtEnd(p, o, BeforeEnd(p, oracle, env, body, BodySent(p, o, oracle, env, n)), pending)
            && (body.outcome.Returned? ==> |body.outcome.stack| == if o.isVoid then 0 else 1)
  {
    hide Rewriting, Steps, BodyOk, AfterBegin, BlocksTyped, CatchesAll, CatchesExceptions, LogReturns, Lift,
      BodyPasses, LastSent, SlotsAfterBody, LastPending, AtEnd;
    AddedCatch(p, o, w, oracle);
    BothWellFormed(p, o, w);
    var f1 := AfterBegin(p, oracle, Start(p, env));
    AfterBeginShape(p, oracle, Start(p, env));
    var s := BodyStartState(f1.env);
    var body := Steps(o, oracle, s, n);
    var x := StateOf(Start(p, env), 0, []);
    var m1 := EntersBody(p, o, w, oracle, env);
    var m2 := BodyRuns(p, o, w, oracle, s, true, f1.slots, f1.trace, n);
    StepsCompose(w, oracle, x, m1, m2);
    m := m1 + m2;
    var y, last := Steps(w, oracle, Lift(p, o, s, true, f1.slots, f1.trace), m2), LastSent(o, oracle, s, true, n);
    assert ReachesEnd(p, o, y, last, f1.slots, f1.trace, body);
    pending :| EndsWith(p, o, y, last, f1.slots, f1.trace, body, pending);
  }

  /** The run meets no overreaching clause: none takes the body's exception or one of the EndMethod region. */
  predicate RunPasses(p: Plan, o: Program, oracle: Oracle, env: Env, body: State, sent: bool)
    requires LogReturns(p, oracle) && BlocksTyped(p, oracle) && body.Done?
  {
    BodyPasses(o, oracle, body) && EndPasses(p, o, oracle, BeforeEnd(p, oracle, env, body, sent))
  }

  /** Without overreaching clauses every run passes. */
  lemma AllRunsPass(p: Plan, o: Program, oracle: Oracle, env: Env, body: State, sent: bool)
    requires LogReturns(p, oracle) && BlocksTyped(p, oracle) && body.Done?
    requires forall i :: 0 <= i < |o.clauses| ==> !Overreaches(o, i)
    ensures RunPasses(p, o, oracle, env, body, sent)
  {
    hide Overreaches, BeforeEnd, BlocksTyped, LogReturns;
  }

  /**
   CallTarget rewriting preserves meaning: a body that ends, run from the environment BeginMethod left, decides
   how the rewritten method ends, whatever the callbacks do.
   */
  lemma CallTargetPreservesMeaning(p: Plan, o: Program, w: Program, oracle: Oracle, env: Env, n: nat)
    returns (m: nat)
    requires Setting(p, o, w, oracle) && BodyRun(p, o, oracle, env, n).Done?
    requires RunPasses(p, o, oracle, env, BodyRun(p, o, oracle, env, n), BodySent(p, o, oracle, env, n))
    ensures var body := BodyRun(p, o, oracle, env, n);
            && Steps(w, oracle, StateOf(Start(p, env), 0, []), m)
               == Wrapped(p, oracle, env, body, BodySent(p, o, oracle, env, n))
            && (body.outcome.Returned? ==> |body.outcome.stack| == if o.isVoid then 0 else 1)
  {
    hide Rewriting, Steps, BodyOk, AfterBegin, AfterEnd, BlocksTyped, CatchesAll, CatchesExceptions, LogReturns,
      BodyRun, BodySent,
      BeforeEnd, BodyPasses, EndPasses, AtEnd, LastPending;
    AddedCatch(p, o, w, oracle);
    BothWellFormed(p, o, w);
    var body, sent := BodyRun(p, o, oracle, env, n), BodySent(p, o, oracle, env, n);
    var x := StateOf(Start(p, env), 0, []);
    var m1, pending := ReachesEndMethod(p, o, w, oracle, env, n);
    var m2 := EndRuns(p, o, w, oracle, BeforeEnd(p, oracle, env, body, sent), pending);
    StepsCompose(w, oracle, x, m1, m2);
    m := m1 + m2;
  }

  lemma {:induction false} StillRunning(p: Program, oracle: Oracle, s: State, m: nat, n: nat)
    requires WellFormed(p) && m <= n && Steps(p, oracle, s, n).Running?
    ensures Steps(p, oracle, s, m).Running?
  {
    hide Step;
    StepsCompose(p, oracle, s, m, n - m);
  }

  /** A body that never ends makes the rewritten method never end. */
  lemma DivergenceKept(p: Plan, o: Program, w: Program, oracle: Oracle, env: Env, n: nat)
    requires Setting(p, o, w, oracle) && BodyRun(p, o, oracle, env, n).Running?
    ensures Steps(w, oracle, StateOf(Start(p, env), 0, []), n).Running?
  {
    hide Rewriting, Steps, BodyOk, AfterBegin, AfterEnd, BlocksTyped, CatchesAll, CatchesExceptions, LogReturns, Lift,
      StateOk, LastSent;
    AddedCatch(p, o, w, oracle);
    BothWellFormed(p, o, w);
    var f1 := AfterBegin(p, oracle, Start(p, env));
    AfterBeginShape(p, oracle, Start(p, env));
    var s := BodyStartState(f1.env);
    var x := StateOf(Start(p, env), 0, []);
    var m1 := EntersBody(p, o, w, oracle, env);
    var m2 := BodyRuns(p, o, w, oracle, s, true, f1.slots, f1.trace, n);
    StepsCompose(w, oracle, x, m1, m2);
    LiftRunning(p, o, Steps(o, oracle, s, n), LastSent(o, oracle, s, true, n), f1.slots, f1.trace);
    StillRunning(w, oracle, x, n, m1 + n);
  }

  // ---- the result, and when it is lost

  /**
   In every run that ends in a return, the result local holds the body's value when EndMethod's region starts if
   and only if the body fell through to the return, or the local held that value already.
   */
  lemma ResultKeptIff(p: Plan, o: Program, w: Program, oracle: Oracle, env: Env, n: nat)
    returns (m: nat, f: Frame, pending: Pending)
    requires Setting(p, o, w, oracle) && !p.isVoid
    requires BodyRun(p, o, oracle, env, n).Done? && BodyRun(p, o, oracle, env, n).outcome.Returned?
    ensures Steps(w, oracle, StateOf(Start(p, env), 0, []), m) == AtEnd(p, o, f, pending) && |f.slots| == SlotCount(p)
    ensures |AfterBegin(p, oracle, Start(p, env)).slots| == SlotCount(p)
    ensures var v := BodyRun(p, o, oracle, env, n).outcome.stack;
            && |v| == 1
            && (f.slots[0] == v[0]
                <==> !BodySent(p, o, oracle, env, n) || AfterBegin(p, oracle, Start(p, env)).slots[0] == v[0])
  {
    hide Rewriting, Steps, BodyOk, AfterBegin, BlocksTyped, CatchesAll, CatchesExceptions, LogReturns, LastSent, AtEnd;
    AddedCatch(p, o, w, oracle);
    BothWellFormed(p, o, w);
    AfterBeginShape(p, oracle, Start(p, env));
    m, pending := ReachesEndMethod(p, o, w, oracle, env, n);
    f := BeforeEnd(p, oracle, env, BodyRun(p, o, oracle, env, n), BodySent(p, o, oracle, env, n));
    SameVoid(p, o, w);
  }

  lemma SameVoid(p: Plan, o: Program, w: Program)
    requires Rewriting(p, o, w)
    ensures p.isVoid == o.isVoid
  {
  }

  /** No branch and no arm of a switch goes to a return. A leave may: it empties the stack. */
  predicate NoBranchToReturn(o: Program) {
    forall k :: 0 <= k < |o.code| && o.code[k].opcode !in {LEAVE, LEAVE_S} && o.code[k].operand.Target? ==>
      !ReturnsAt(o, o.code[k].operand.to)
  }

  predicate ReturnsAt(o: Program, t: nat) {
    t < |o.code| && o.code[t].opcode == RET
  }

  /** Control that is sent to a return of a method with a result arrives with nothing to return. */
  lemma SentToReturn(o: Program, oracle: Oracle, s: State)
    requires BodyOk(o) && NoBranchToReturn(o) && s.Running? && Step(o, oracle, s).Running? && Sends(o, oracle, s)
    ensures !ReturnsAt(o, Step(o, oracle, s).pc) || Step(o, oracle, s).stack == []
  {
    hide SwitchesOk, Trim, FindHandler, FindFinally, InstrOk;
    BodyRegions(o);
    var i := o.code[s.pc];
    assert OperandOk(o.code, s.pc);
    forall c | 0 <= c < |o.clauses| ensures !ReturnsAt(o, o.clauses[c].handlerBegin) {
      assert ClauseOk(o, o.clauses[c]);
    }
    if i.opcode !in {BR, BR_S, LEAVE, LEAVE_S, RETHROW, ENDFINALLY} {
      match oracle.exec(KeyOf(i), s.env, s.stack) {
        case Goto(_, _, arm) => ArmNoReturn(o, s.pc, arm);
        case _ =>
      }
    }
  }

  lemma ArmNoReturn(o: Program, k: nat, arm: nat)
    requires WellFormed(o) && NoBranchToReturn(o) && k < |o.code| && o.code[k].opcode !in {LEAVE, LEAVE_S}
    requires SwitchesOk(o.code, 0, 0)
    ensures !ReturnsAt(o, ArmTarget(o, k, arm))
  {
    if o.code[k].opcode == SWITCH {
      SwitchArgsFollow(o.code, 0, 0, k);
      OwedArgs(o.code, k + 1, o.code[k].operand.w);
    }
  }

  /** In a body without branches to returns, every run that returns a result has fallen through to the return. */
  lemma {:induction false} FellThrough(o: Program, oracle: Oracle, s: State, sent: bool, n: nat)
    requires BodyOk(o) && NoBranchToReturn(o) && !o.isVoid && s.Running?
    requires sent ==> !ReturnsAt(o, s.pc) || s.stack == []
    requires Steps(o, oracle, s, n).Done? && Steps(o, oracle, s, n).outcome.Returned?
    ensures !LastSent(o, oracle, s, sent, n)
    decreases n
  {
    hide Step, BodyOk, NoBranchToReturn, Sends, ReturnsAt;
    WellFormedBody(o);
    StepsUnfold(o, oracle, s, n);
    var r := Step(o, oracle, s);
    if r.Running? {
      if Sends(o, oracle, s) {
        SentToReturn(o, oracle, s);
      }
      FellThrough(o, oracle, r, Sends(o, oracle, s), n - 1);
    } else {
      ReturnedHere(o, oracle, s);
    }
  }

  lemma WellFormedBody(o: Program)
    requires BodyOk(o)
    ensures WellFormed(o)
  {
  }

  lemma ReturnedHere(o: Program, oracle: Oracle, s: State)
    requires WellFormed(o) && !o.isVoid && s.Running?
    requires Step(o, oracle, s).Done? && Step(o, oracle, s).outcome.Returned?
    ensures ReturnsAt(o, s.pc) && s.stack != []
  {
    hide WellFormed, Trim, FindHandler, FindFinally;
  }

  /** So in a body without branches to returns the result is never lost. */
  lemma ResultNeverLost(p: Plan, o: Program, oracle: Oracle, env: Env, n: nat)
    requires BodyOk(o) && NoBranchToReturn(o) && !o.isVoid && LogReturns(p, oracle) && BlocksTyped(p, oracle)
    requires BodyRun(p, o, oracle, env, n).Done? && BodyRun(p, o, oracle, env, n).outcome.Returned?
    ensures !BodySent(p, o, oracle, env, n)
  {
    hide BodyOk, NoBranchToReturn, Steps, LastSent, AfterBegin, BlocksTyped, LogReturns, ReturnsAt;
    WellFormedBody(o);
    FellThrough(o, oracle, BodyStartState(AfterBegin(p, oracle, Start(p, env)).env), true, n);
  }
}
