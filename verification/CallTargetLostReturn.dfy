/**
 A method whose result is lost: a constant, then a branch to the return. Its body returns the constant; when
 EndMethod throws, the rewritten method returns the default value instead.
 */
module CallTargetLostReturn {
  import opened OpCodes
  import opened ILCode
  import opened ExceptionTable
  import opened ILMachine
  import opened CallTargetCode
  import opened StraightLine
  import opened CallTargetBody
  import opened CallTargetMeaning
  import opened CallTargetTheorem
  import opened CallTargetContract
  import opened CallTargetEncoding

  const TOKENS: Tokens := Tokens(1, 2, 3, 4, 5, 6, 7, 8, 9)

  /** A static method without parameters that returns an integer. */
  const PLAN: Plan := Plan(NoReceiver, [], false, 0, TOKENS)

  /** ldc.i4.5; br.s to the return; ret. */
  const BODY: Code := [Instr(LDC_I4_0 + 5, Bits(0)), Instr(BR_S, Target(2)), Bare(RET)]

  const CONSTANT: Val := Obj(5)
  const DEFAULT: Val := Obj(0)

  function Exec(key: Key, env: Env, stack: seq<Val>): Effect {
    var popped := if stack == [] then [] else stack[..|stack| - 1];
    if key.opcode != CALL then Next(env, stack + [CONSTANT])
    else if key.bits == TOKENS.end then Raise(env, Obj(1))
    else if key.bits == TOKENS.logException then Next(env, popped)
    else if key.bits in {TOKENS.begin, TOKENS.getReturnValue} then Next(env, popped + [Null])
    else Next(env, stack + [DEFAULT])
  }

  /** Default values are pushed, EndMethod throws, everything else goes well. */
  const ORACLE: Oracle := Oracle(Exec, (i, env, exc) => true)

  function Original(): Program {
    Program(BODY, [], 0, false)
  }

  /** The body after the rewriting: the store falls in front of the return, the branch goes behind the store. */
  function Middle(): Code {
    [Instr(LDC_I4_0 + 5, Bits(0)), Instr(BR_S, Target(15)), Bare(STLOC_0), Instr(LEAVE_S, Target(31))]
  }

  function Rewritten(): Program {
    Program(Prologue(PLAN, BODY) + Middle() + Epilogue(PLAN, BODY), NewClauses(PLAN, BODY, []), 0, false)
  }

  lemma Sizes()
    ensures |BeginBlock(PLAN)| == 9 && |EndBlock(PLAN)| == 9
  {
  }

  lemma Layout()
    ensures BodyStart(PLAN) == 12 && CatchPos(PLAN, BODY) == 16 && ReturnPos(PLAN, BODY) == 31
    ensures EndTryPos(PLAN, BODY) == 18 && EndLeavePos(PLAN, BODY) == 27 && EndFinallyPos(PLAN, BODY) == 30
    ensures TotalSize(PLAN, BODY) == 33
    ensures NodePos(PLAN, BODY, 0) == 12 && NodePos(PLAN, BODY, 1) == 13 && NodePos(PLAN, BODY, 2) == 15
    ensures |Prologue(PLAN, BODY)| == 12 && |Epilogue(PLAN, BODY)| == 17
  {
    Sizes();
    hide BeginBlock, EndBlock, StoreLocal, LoadLocal;
    RetCounts();
    hide RetCount;
  }

  lemma RetCounts()
    ensures RetCount(PLAN, BODY, 0) == RetCount(PLAN, BODY, 1) == RetCount(PLAN, BODY, 2) == 0
    ensures RetCount(PLAN, BODY, 3) == 1
  {
  }

  lemma IsRewritten()
    ensures CodeRewritten(PLAN, BODY, Rewritten().code)
  {
    hide BeginBlock, EndBlock, BodyStart, CatchPos, TotalSize, Prologue, Epilogue, NodePos, ReturnPos;
    Layout();
    var w := Rewritten().code;
    forall k | 0 <= k < |BODY| ensures NodeRewritten(PLAN, BODY, w, k) {
      assert NodeRewritten(PLAN, BODY, w, 0);
      assert NodeRewritten(PLAN, BODY, w, 1);
      assert NodeRewritten(PLAN, BODY, w, 2);
    }
    assert w[CatchPos(PLAN, BODY)..] == Epilogue(PLAN, BODY);
  }

  lemma Rewrites()
    ensures Rewriting(PLAN, Original(), Rewritten()) && BodyOk(Original())
  {
    hide BeginBlock, EndBlock, BodyStart, CatchPos, TotalSize, Prologue, Epilogue, NodePos, ReturnPos, CodeRewritten;
    BodyFits();
    IsRewritten();
    RewrittenExportable(PLAN, BODY, Rewritten().code);
    Layout();
    ClausesFit();
    hide Exportable, BodyOk, NewClauses;
  }

  lemma ClausesFit()
    ensures forall i :: 0 <= i < 4 ==> InList(NewClauses(PLAN, BODY, [])[i], 33)
  {
    hide BeginBlock, EndBlock, CatchPos, EndTryPos, EndLeavePos, EndFinallyPos;
    Sizes();
    Layout();
  }

  lemma BodyFits()
    ensures Exportable(BODY) && WellFormed(Original()) && BodyOk(Original())
  {
    assert SwitchesOk(BODY, 3, 0);
    assert SwitchesOk(BODY, 2, 0);
    assert SwitchesOk(BODY, 1, 0);
  }

  // ---- the injected blocks

  function BeginList(): seq<Op> {
    [Op(WithToken(CALL, 3), 0, 1), Op(Bare(STLOC_0), 1, 0)] + BeginTail()
  }

  function BeginTail(): seq<Op> {
    [Op(WithToken(CALL, 4), 0, 1), Op(Bare(STLOC_0 + 2), 1, 0), Op(Bare(LDNULL), 0, 1), Op(Bare(STLOC_0 + 1), 1, 0),
     Op(Bare(LDNULL), 0, 1), Op(WithToken(CALL, 6), 1, 1), Op(Bare(STLOC_0 + 3), 1, 0)]
  }

  function EndList(): seq<Op> {
    [Op(Bare(LDNULL), 0, 1), Op(Bare(LDLOC_0), 0, 1), Op(Bare(LDLOC_0 + 1), 0, 1), Op(Bare(LDLOC_0 + 3), 0, 1),
     Op(WithToken(CALL, 8), 4, 1), Op(Bare(STLOC_0 + 2), 1, 0), Op(WithToken(LDLOCA_S, 2), 0, 1),
     Op(WithToken(CALL, 9), 1, 1), Op(Bare(STLOC_0), 1, 0)]
  }

  lemma Blocks()
    ensures BeginBlock(PLAN) == BeginList() && EndBlock(PLAN) == EndList()
  {
  }

  lemma CallTyped(token: nat, pops: nat, pushes: nat)
    requires (token, pops) in {(3, 0), (4, 0), (6, 1), (8, 4), (9, 1)} && pushes == 1
    ensures Typed(ORACLE, Op(WithToken(CALL, token), pops, pushes))
  {
    hide LocalUseOf;
    var op := Op(WithToken(CALL, token), pops, pushes);
    forall env, stack: seq<Val> | |stack| >= pops ensures TypedAt(ORACLE, op, env, stack) {
      assert KeyOf(op.i) == Key(CALL, token);
    }
  }

  lemma OpsTyped()
    ensures forall k :: 0 <= k < 9 ==> OpOk(0, 4, ORACLE, BeginList()[k])
    ensures forall k :: 0 <= k < 9 ==> OpOk(0, 4, ORACLE, EndList()[k])
  {
    CallTyped(3, 0, 1);
    CallTyped(4, 0, 1);
    CallTyped(6, 1, 1);
    CallTyped(8, 4, 1);
    CallTyped(9, 1, 1);
    hide Typed;
  }

  lemma {:induction false} BeginDepth(k: nat)
    requires k <= 9
    ensures Depth(BeginList(), k) == [0, 1, 0, 1, 0, 1, 0, 1, 1, 0][k]
  {
    if k > 0 {
      BeginDepth(k - 1);
    }
  }

  lemma {:induction false} EndDepth(k: nat)
    requires k <= 9
    ensures Depth(EndList(), k) == [0, 1, 2, 3, 4, 1, 0, 1, 1, 0][k]
  {
    if k > 0 {
      EndDepth(k - 1);
    }
  }

  lemma Behaves()
    ensures Setting(PLAN, Original(), Rewritten(), ORACLE)
  {
    Rewrites();
    hide Rewriting, BodyOk;
    OracleBehaves();
  }

  lemma OracleBehaves()
    ensures LogReturns(PLAN, ORACLE) && BlocksTyped(PLAN, ORACLE)
    ensures CatchesExceptions(Rewritten(), ORACLE, TOKENS.exceptionType)
  {
    hide BeginBlock, EndBlock, OpOk, Depth;
    forall env, exc ensures LogReturnsAt(PLAN, ORACLE, env, exc) {
    }
    Blocks();
    OpsTyped();
    forall k | 0 <= k <= 9 ensures Depth(BeginList(), k) >= 0 && Depth(EndList(), k) >= 0 {
      BeginDepth(k);
      EndDepth(k);
    }
  }

  // ---- the runs

  /** When the body starts, the result local holds the default value. */
  lemma DefaultStored(env: Env)
    ensures LogReturns(PLAN, ORACLE) && BlocksTyped(PLAN, ORACLE)
    ensures |AfterBegin(PLAN, ORACLE, Start(PLAN, env)).slots| == 4
    ensures AfterBegin(PLAN, ORACLE, Start(PLAN, env)).slots[0] == DEFAULT
  {
    hide BeginBlock, EndBlock, BlocksTyped, LogReturns, RunOps;
    OracleBehaves();
    Blocks();
    var f := Start(PLAN, env);
    AfterBeginShape(PLAN, ORACLE, f);
    var head := [Op(WithToken(CALL, 3), 0, 1), Op(Bare(STLOC_0), 1, 0)];
    RunOpsAppend(0, ORACLE, head, BeginTail(), 0, f);
    HeadRuns(f);
    var g := RunOps(0, ORACLE, head, 0, f).f;
    SlotKept(0, ORACLE, BeginTail(), 0, g, 0);
    hide BeginTail;
    WholeBlock(f);
  }

  lemma WholeBlock(f: Frame)
    requires LogReturns(PLAN, ORACLE) && BlocksTyped(PLAN, ORACLE) && |f.slots| == 4 && f.stack == []
    ensures BeginBlock(PLAN) == BeginList() && !RunOps(0, ORACLE, BeginList(), 0, f).Wedged?
    ensures AfterBegin(PLAN, ORACLE, f).slots == RunOps(0, ORACLE, BeginList(), 0, f).f.slots
  {
    hide BeginBlock, EndBlock, RunOps, BlockOk, BeginList;
    Blocks();
    BlockRuns(0, ORACLE, BeginBlock(PLAN), 0, f);
  }

  lemma HeadRuns(f: Frame)
    requires |f.slots| == 4
    ensures var r := RunOps(0, ORACLE, [Op(WithToken(CALL, 3), 0, 1), Op(Bare(STLOC_0), 1, 0)], 0, f);
            r.Through? && |r.f.slots| == 4 && r.f.slots[0] == DEFAULT
  {
    hide RunOp;
    var head := [Op(WithToken(CALL, 3), 0, 1), Op(Bare(STLOC_0), 1, 0)];
    RunCall(0, ORACLE, 3, f);
    var g := RunOp(0, ORACLE, head[0].i, f).f;
    RunStore(0, ORACLE, 0, g);
    RunNext(0, ORACLE, head, 0, f, g);
    RunNext(0, ORACLE, head, 1, g, RunOp(0, ORACLE, head[1].i, g).f);
  }

  /** The body, wherever it starts: three steps, and the constant is returned from a return control was sent to. */
  lemma BodyReturnsConstant(env: Env)
    ensures WellFormed(Original())
    ensures var r := Steps(Original(), ORACLE, BodyStartState(env), 3);
            r.Done? && r.outcome == Returned(env, [CONSTANT])
    ensures LastSent(Original(), ORACLE, BodyStartState(env), true, 3)
  {
    BodyFits();
    var o, s := Original(), BodyStartState(env);
    var s1 := s.(pc := 1, stack := [CONSTANT], trace := [Event(Key(LDC_I4_0 + 5, 0), env, [])]);
    var s2 := s1.(pc := 2);
    assert Step(o, ORACLE, s) == s1;
    assert Step(o, ORACLE, s1) == s2 && Sends(o, ORACLE, s1);
    assert Step(o, ORACLE, s2) == Done(Returned(env, [CONSTANT]), s2.trace);
    hide Step, Sends, WellFormed;
    StepsUnfold(o, ORACLE, s, 3);
    StepsUnfold(o, ORACLE, s1, 2);
    StepsUnfold(o, ORACLE, s2, 1);
    SentUnfold(s, true, 3);
    SentUnfold(s1, Sends(o, ORACLE, s), 2);
    SentUnfold(s2, true, 1);
  }

  lemma SentUnfold(s: State, sent: bool, n: nat)
    requires WellFormed(Original()) && s.Running? && n > 0
    ensures LastSent(Original(), ORACLE, s, sent, n)
            == var r := Step(Original(), ORACLE, s);
               if r.Running? then LastSent(Original(), ORACLE, r, Sends(Original(), ORACLE, s), n - 1) else sent
  {
  }

  /** From the start of the method: the body returns the constant, the rewritten method the default value. */
  lemma ResultIsLost(env: Env) returns (m: nat)
    ensures Setting(PLAN, Original(), Rewritten(), ORACLE) && TokensDistinct(TOKENS)
    ensures var r := BodyRun(PLAN, Original(), ORACLE, env, 3);
            r.Done? && r.outcome.Returned? && r.outcome.stack == [CONSTANT]
    ensures var r := Steps(Rewritten(), ORACLE, StateOf(Start(PLAN, env), 0, []), m);
            r.Done? && r.outcome.Returned? && r.outcome.stack == [DEFAULT]
  {
    hide Steps, BlocksTyped, LogReturns, CatchesExceptions, Rewriting, BodyOk, Rewritten, AfterBegin, LastSent,
      EndThrows,
      RunPasses;
    Behaves();
    DefaultStored(env);
    BodyReturnsConstant(AfterBegin(PLAN, ORACLE, Start(PLAN, env)).env);
    var o := Original();
    var body, sent := BodyRun(PLAN, o, ORACLE, env, 3), BodySent(PLAN, o, ORACLE, env, 3);
    AllRunsPass(PLAN, o, ORACLE, env, body, sent);
    EndAlwaysThrows(env, body, sent);
    m := BranchedReturnIsLost(PLAN, o, Rewritten(), ORACLE, env, 3);
  }

  lemma EndAlwaysThrows(env: Env, body: State, sent: bool)
    requires LogReturns(PLAN, ORACLE) && BlocksTyped(PLAN, ORACLE) && body.Done?
    ensures EndThrows(PLAN, ORACLE, env, body, sent)
  {
    hide LogReturns, BlocksTyped, RunOps, BeforeEnd;
  }
}
