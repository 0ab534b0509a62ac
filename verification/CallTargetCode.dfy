/** The code and clauses the CallTarget rewriting produces from a method body. */
module CallTargetCode {
  import opened OpCodes
  import opened ILCode
  import opened ExceptionTable

  // ---- single instructions, as the emission helpers encode them

  function StoreLocal(index: nat): Instr {
    if index <= 3 then Instr(STLOC_0 + index, Bits(0))
    else if index <= 255 then Instr(STLOC_S, Bits(index))
    else Instr(STLOC, Bits(index % 0x1_0000))
  }

  function LoadLocal(index: nat): Instr {
    if index <= 3 then Instr(LDLOC_0 + index, Bits(0))
    else if index <= 255 then Instr(LDLOC_S, Bits(index))
    else Instr(LDLOC, Bits(index % 0x1_0000))
  }

  function LoadLocalAddress(index: nat): Instr {
    if index <= 255 then Instr(LDLOCA_S, Bits(index)) else Instr(LDLOCA, Bits(index % 0x1_0000))
  }

  /** The index is a 16-bit parameter. */
  function LoadArgument(index: nat): Instr {
    var i := index % 0x1_0000;
    if i <= 3 then Instr(LDARG_0 + i, Bits(0))
    else if i <= 255 then Instr(LDARG_S, Bits(i))
    else Instr(LDARG, Bits(i))
  }

  function LoadInt32(value: int): Instr {
    if 0 <= value <= 8 then Instr(LDC_I4_0 + value, Bits(0))
    else if -128 <= value <= 127 then Instr(LDC_I4_S, Bits(value % 256))
    else Instr(LDC_I4, Bits(value % 0x1_0000_0000))
  }

  function Bare(opcode: nat): Instr {
    Instr(opcode, Bits(0))
  }

  function WithToken(opcode: nat, token: nat): Instr {
    Instr(opcode, Bits(token))
  }

  // ---- what a rewriting needs to know

  /** A metadata token: 32 bits. */
  type Token = t: nat | t < 0x1_0000_0000

  /** How the instance argument of the callbacks is loaded. */
  datatype Receiver = NoReceiver | Reference | Struct(token: Token)

  /** Metadata tokens of the members and types the injected code refers to. */
  datatype Tokens = Tokens(
    objectType: Token, exceptionType: Token,
    defaultValue: Token, returnDefault: Token, voidDefault: Token,
    begin: Token, logException: Token, end: Token, getReturnValue: Token)

  /** `args` holds, for every argument, the token it is boxed with (if it is). `localCount` counts old locals. */
  datatype Plan = Plan(receiver: Receiver, args: seq<Boxing>, isVoid: bool, localCount: nat, tokens: Tokens)

  datatype Boxing = Unboxed | Boxed(token: Token)

  const FASTPATH_COUNT: nat := 9

  function ReturnLocal(p: Plan): nat { p.localCount }
  function ExceptionLocal(p: Plan): nat { if p.isVoid then p.localCount else p.localCount + 1 }
  function ReturnStateLocal(p: Plan): nat { ExceptionLocal(p) + 1 }
  function StateLocal(p: Plan): nat { ExceptionLocal(p) + 2 }
  function SlotCount(p: Plan): nat { if p.isVoid then 3 else 4 }

  /** An injected instruction with the number of values it pops and pushes. */
  datatype Op = Op(i: Instr, pops: nat, pushes: nat)

  function InitOps(p: Plan): seq<Op> {
    (if p.isVoid then
       [Op(WithToken(CALL, p.tokens.voidDefault), 0, 1), Op(StoreLocal(ReturnStateLocal(p)), 1, 0)]
     else
       [Op(WithToken(CALL, p.tokens.defaultValue), 0, 1), Op(StoreLocal(ReturnLocal(p)), 1, 0),
        Op(WithToken(CALL, p.tokens.returnDefault), 0, 1), Op(StoreLocal(ReturnStateLocal(p)), 1, 0)])
    + [Op(Bare(LDNULL), 0, 1), Op(StoreLocal(ExceptionLocal(p)), 1, 0)]
  }

  function ReceiverOps(r: Receiver): seq<Op> {
    match r
    case NoReceiver => [Op(Bare(LDNULL), 0, 1)]
    case Reference => [Op(LoadArgument(0), 0, 1)]
    case Struct(token) => [Op(LoadArgument(0), 0, 1), Op(WithToken(LDOBJ, token), 1, 1)]
  }

  function ArgIndex(r: Receiver, i: nat): nat {
    if r.NoReceiver? then i else i + 1
  }

  /** The first k arguments, loaded one after another. */
  function FastArgOps(p: Plan, k: nat): seq<Op>
    requires k <= |p.args|
  {
    if k == 0 then [] else FastArgOps(p, k - 1) + [Op(LoadArgument(ArgIndex(p.receiver, k - 1)), 0, 1)]
  }

  function ArrayItemOps(p: Plan, i: nat): seq<Op>
    requires i < |p.args|
  {
    [Op(Bare(DUP), 1, 2), Op(LoadInt32(i), 0, 1), Op(LoadArgument(ArgIndex(p.receiver, i)), 0, 1)]
    + (if p.args[i].Boxed? then [Op(WithToken(BOX, p.args[i].token), 1, 1)] else [])
    + [Op(Bare(STELEM_REF), 3, 0)]
  }

  /** The first k arguments, stored into an object array. */
  function ArrayOps(p: Plan, k: nat): seq<Op>
    requires k <= |p.args|
  {
    if k == 0 then [Op(LoadInt32(|p.args|), 0, 1), Op(WithToken(NEWARR, p.tokens.objectType), 1, 1)]
    else ArrayOps(p, k - 1) + ArrayItemOps(p, k - 1)
  }

  function ArgOps(p: Plan): seq<Op> {
    if |p.args| < FASTPATH_COUNT then FastArgOps(p, |p.args|) else ArrayOps(p, |p.args|)
  }

  function BeginOps(p: Plan): seq<Op> {
    [Op(WithToken(CALL, p.tokens.begin), 1 + (if |p.args| < FASTPATH_COUNT then |p.args| else 1), 1),
     Op(StoreLocal(StateLocal(p)), 1, 0)]
  }

  /** The instructions before the call of BeginMethod. */
  function BeginPre(p: Plan): seq<Op> {
    InitOps(p) + (ReceiverOps(p.receiver) + ArgOps(p))
  }

  /** The body of the first injected try region, up to its leave. */
  function BeginBlock(p: Plan): seq<Op> {
    BeginPre(p) + BeginOps(p)
  }

  /** The arguments of EndMethod after the instance. */
  function EndLoads(p: Plan): seq<Op> {
    (if p.isVoid then [] else [Op(LoadLocal(ReturnLocal(p)), 0, 1)])
    + [Op(LoadLocal(ExceptionLocal(p)), 0, 1), Op(LoadLocal(StateLocal(p)), 0, 1)]
  }

  /** The call of EndMethod and what is done with its answer. */
  function EndRest(p: Plan): seq<Op> {
    [Op(WithToken(CALL, p.tokens.end), if p.isVoid then 3 else 4, 1), Op(StoreLocal(ReturnStateLocal(p)), 1, 0)]
    + (if p.isVoid then []
       else [Op(LoadLocalAddress(ReturnStateLocal(p)), 0, 1), Op(WithToken(CALL, p.tokens.getReturnValue), 1, 1),
             Op(StoreLocal(ReturnLocal(p)), 1, 0)])
  }

  /** The body of the try region inside the finally handler, up to its leave. */
  function EndBlock(p: Plan): seq<Op> {
    ReceiverOps(p.receiver) + (EndLoads(p) + EndRest(p))
  }

  function CodeOf(ops: seq<Op>): (code: Code)
    ensures |code| == |ops|
  {
    seq(|ops|, i requires 0 <= i < |ops| => ops[i].i)
  }

  // ---- layout

  /** Returns among the first k instructions that get a store in front of them. */
  function RetCount(p: Plan, code: Code, k: nat): nat
    requires k <= |code|
  {
    if k == 0 || p.isVoid then 0 else RetCount(p, code, k - 1) + if code[k - 1].opcode == RET then 1 else 0
  }

  function BodyStart(p: Plan): nat {
    |BeginBlock(p)| + 3
  }

  /** Where control falling into instruction k of the original body arrives. */
  function EntryPos(p: Plan, code: Code, k: nat): nat
    requires k <= |code|
  {
    BodyStart(p) + k + RetCount(p, code, k)
  }

  /** Where the node of instruction k of the original body is. */
  function NodePos(p: Plan, code: Code, k: nat): nat
    requires k < |code|
  {
    EntryPos(p, code, k) + if !p.isVoid && code[k].opcode == RET then 1 else 0
  }

  /** The first instruction of the injected catch handler, right after the body. */
  function CatchPos(p: Plan, code: Code): nat { EntryPos(p, code, |code|) }
  function EndTryPos(p: Plan, code: Code): nat { CatchPos(p, code) + 2 }
  function EndLeavePos(p: Plan, code: Code): nat { EndTryPos(p, code) + |EndBlock(p)| }
  function EndFinallyPos(p: Plan, code: Code): nat { EndLeavePos(p, code) + 3 }
  function ReturnPos(p: Plan, code: Code): nat { EndFinallyPos(p, code) + 1 }
  function TotalSize(p: Plan, code: Code): nat { ReturnPos(p, code) + if p.isVoid then 1 else 2 }

  /** Where position t of the original list (its sentinel for t == |code|) ends up. */
  function NewPos(p: Plan, code: Code, t: nat): nat
    requires t <= |code|
  {
    if t < |code| then NodePos(p, code, t) else TotalSize(p, code)
  }

  function NewOperand(p: Plan, code: Code, o: Operand): Operand {
    match o
    case Bits(w) => o
    case Target(t) => Target(if t <= |code| then NewPos(p, code, t) else t)
  }

  /** The node of instruction k after the rewriting: returns leave the body, everything else stays. */
  function NewNode(p: Plan, code: Code, k: nat): Instr
    requires k < |code|
  {
    if code[k].opcode == RET then Instr(LEAVE_S, Target(ReturnPos(p, code)))
    else Instr(code[k].opcode, NewOperand(p, code, code[k].operand))
  }

  /** Everything before the original body. */
  function Prologue(p: Plan, code: Code): Code
    requires |code| > 0
  {
    CodeOf(BeginBlock(p))
    + [Instr(LEAVE_S, Target(NodePos(p, code, 0))),
       WithToken(CALL, p.tokens.logException),
       Instr(LEAVE_S, Target(NodePos(p, code, 0)))]
  }

  /** Everything after it. */
  function Epilogue(p: Plan, code: Code): Code {
    [StoreLocal(ExceptionLocal(p)), Bare(RETHROW)]
    + CodeOf(EndBlock(p))
    + [Instr(LEAVE_S, Target(EndFinallyPos(p, code))),
       WithToken(CALL, p.tokens.logException),
       Instr(LEAVE_S, Target(EndFinallyPos(p, code))),
       Bare(ENDFINALLY)]
    + (if p.isVoid then [] else [LoadLocal(ReturnLocal(p))])
    + [Bare(RET)]
  }

  predicate NodeRewritten(p: Plan, code: Code, w: Code, k: nat)
    requires k < |code| && |w| == TotalSize(p, code)
  {
    var q := NodePos(p, code, k);
    && q < |w| && w[q] == NewNode(p, code, k)
    && (!p.isVoid && code[k].opcode == RET ==> q > 0 && w[q - 1] == StoreLocal(ReturnLocal(p)))
  }

  /** `w` is the rewriting of the instruction list `code`: this says what is at every position. */
  ghost predicate CodeRewritten(p: Plan, code: Code, w: Code) {
    && |code| > 0
    && |w| == TotalSize(p, code)
    && BodyStart(p) <= CatchPos(p, code) <= |w|
    && w[..BodyStart(p)] == Prologue(p, code)
    && (forall k :: 0 <= k < |code| ==> NodeRewritten(p, code, w, k))
    && w[CatchPos(p, code)..] == Epilogue(p, code)
  }

  // ---- clauses

  function NewAnchor(p: Plan, code: Code, t: int): int
    requires -1 <= t <= |code|
  {
    if t < 0 then -1 else NewPos(p, code, t)
  }

  function NewClause(p: Plan, code: Code, c: Clause<int>): Clause<int>
    requires InList(c, |code|)
  {
    Clause(c.flags, NewAnchor(p, code, c.tryBegin), NewAnchor(p, code, c.tryEnd),
           NewAnchor(p, code, c.handlerBegin), NewAnchor(p, code, c.handlerEnd),
           match c.extra
           case ClassToken(_) => c.extra
           case Filter(start) => Filter(NewAnchor(p, code, start)))
  }

  /** try: up to the store of the state; catch: log and leave. */
  function BeginClause(p: Plan, code: Code): Clause<int> {
    var b: int := |BeginBlock(p)|;
    Clause(CLAUSE_NONE, 0, b + 1, b + 1, b + 2, ClassToken(p.tokens.exceptionType))
  }

  /** try: the EndMethod block inside the finally handler; catch: log and leave. */
  function EndClause(p: Plan, code: Code): Clause<int> {
    var e: int := EndLeavePos(p, code);
    var d: int := EndTryPos(p, code);
    Clause(CLAUSE_NONE, d, e + 1, e + 1, e + 2, ClassToken(p.tokens.exceptionType))
  }

  /** try: everything up to the end of the body; catch: store the exception and rethrow. */
  function CatchClause(p: Plan, code: Code): Clause<int> {
    var c: int := CatchPos(p, code);
    Clause(CLAUSE_NONE, 0, c, c, c + 1, ClassToken(p.tokens.exceptionType))
  }

  function FinallyClause(p: Plan, code: Code): Clause<int> {
    var d: int := EndTryPos(p, code);
    var e: int := EndFinallyPos(p, code);
    Clause(CLAUSE_FINALLY, 0, d, d, e, ClassToken(0))
  }

  /** The new table: the original clauses, moved, then the four added ones. */
  function NewClauses(p: Plan, code: Code, cs: seq<Clause<int>>): (r: seq<Clause<int>>)
    requires forall i :: 0 <= i < |cs| ==> InList(cs[i], |code|)
    ensures |r| == |cs| + 4
  {
    seq(|cs|, i requires 0 <= i < |cs| => NewClause(p, code, cs[i]))
    + [BeginClause(p, code), EndClause(p, code), CatchClause(p, code), FinallyClause(p, code)]
  }

  // ---- facts about the layout

  lemma {:induction false} RetCountGap(p: Plan, code: Code, i: nat, j: nat)
    requires i <= j <= |code|
    ensures RetCount(p, code, i) <= RetCount(p, code, j) <= RetCount(p, code, i) + (j - i)
    decreases j
  {
    if i < j {
      RetCountGap(p, code, i, j - 1);
    }
  }

  /** Positions keep their order, and falling out of one node leads to the entry of the next. */
  lemma PositionsOrdered(p: Plan, code: Code, i: nat, j: nat)
    requires i < j <= |code|
    ensures NodePos(p, code, i) + 1 == EntryPos(p, code, i + 1) <= EntryPos(p, code, j)
    ensures j < |code| ==> NodePos(p, code, i) < NodePos(p, code, j)
  {
    hide BeginBlock;
    RetCountGap(p, code, i + 1, j);
  }
}
