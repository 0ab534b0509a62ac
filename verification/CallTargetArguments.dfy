/** What the callbacks get: the instance, and the arguments of the method, one by one or in an array. */
module CallTargetArguments {
  import opened OpCodes
  import opened ILMachine
  import opened ShortForms
  import opened CallTargetCode
  import opened CallTargetEmission
  import opened StraightLine
  import opened CallTargetMeaning
  import opened CallTargetTheorem
  import opened CallTargetContract

  /**
   What an environment holds: the value of each argument, the struct an address leads to, and the elements of each
   array. `box` is what boxing makes of a value; objects stand for their contents.
   */
  datatype Memory = Memory(
    argument: (nat, Env) -> Val, struct: (nat, Val, Env) -> Val, elements: (Env, Val) -> seq<Val>,
    box: (nat, Val) -> Val)

  /** Every instruction that loads an argument pushes its value in the current environment. */
  ghost predicate ArgumentsAre(o: Oracle, M: Memory) {
    forall i, env, stack: seq<Val> :: ArgumentUseOf(i).Argument? ==>
      o.exec(KeyOf(i), env, stack) == Next(env, stack + [M.argument(ArgumentUseOf(i).index, env)])
  }

  lemma LoadArgumentRuns(base: nat, o: Oracle, M: Memory, i: nat, f: Frame)
    requires ArgumentsAre(o, M) && i < 0x1_0000
    ensures var r := RunOp(base, o, LoadArgument(i), f);
            r.Through? && r.f.stack == f.stack + [M.argument(i, f.env)] && r.f.env == f.env
  {
    assert ArgumentUseOf(LoadArgument(i)) == Argument(i);
    assert o.exec(KeyOf(LoadArgument(i)), f.env, f.stack) == Next(f.env, f.stack + [M.argument(i, f.env)]);
  }

  /** Parameter i of a method: the instance is argument 0 of a method that has one, and the parameters follow. */
  function Parameter(c: Caller, M: Memory, env: Env, i: nat): Val {
    M.argument(if c.isStatic then i else i + 1, env)
  }

  lemma LoadParameterRuns(c: Caller, base: nat, o: Oracle, M: Memory, i: nat, f: Frame)
    requires ArgumentsAre(o, M) && i < 0xFFFF
    ensures var r := RunOp(base, o, LoadArgument(ArgIndex(ReceiverOf(c), i)), f);
            r.Through? && r.f.stack == f.stack + [Parameter(c, M, f.env, i)] && r.f.env == f.env
  {
    hide RunOp, LoadArgument;
    LoadArgumentRuns(base, o, M, ArgIndex(ReceiverOf(c), i), f);
  }

  // ---- the fast path

  function Parameters(c: Caller, M: Memory, env: Env, k: nat): (r: seq<Val>)
    ensures |r| == k
  {
    seq(k, i requires 0 <= i < k => Parameter(c, M, env, i))
  }

  /** On the fast path the parameters of the method are pushed one by one, in order. */
  lemma {:induction false} FastArgsRun(c: Caller, p: Plan, o: Oracle, M: Memory, k: nat, f: Frame)
    requires ArgumentsAre(o, M) && p == PlanOf(c, p.localCount, p.tokens) && k <= |c.args| < FASTPATH_COUNT
    ensures var r := RunOps(p.localCount, o, FastArgOps(p, k), 0, f);
            r.Through? && r.f.stack == f.stack + Parameters(c, M, f.env, k) && r.f.env == f.env
  {
    hide RunOp, LoadArgument, ArgumentsAre, Parameter;
    if k == 0 {
      assert f.stack + Parameters(c, M, f.env, 0) == f.stack;
    } else {
      FastArgsRun(c, p, o, M, k - 1, f);
      var g := RunOps(p.localCount, o, FastArgOps(p, k - 1), 0, f).f;
      var last := [Op(LoadArgument(ArgIndex(p.receiver, k - 1)), 0, 1)];
      RunOpsAppend(p.localCount, o, FastArgOps(p, k - 1), last, 0, f);
      LoadParameterRuns(c, p.localCount, o, M, k - 1, g);
      RunNext(p.localCount, o, last, 0, g, RunOp(p.localCount, o, last[0].i, g).f);
      assert f.stack + Parameters(c, M, f.env, k)
          == f.stack + Parameters(c, M, f.env, k - 1) + [Parameter(c, M, f.env, k - 1)];
    }
  }

  // ---- the array path

  /** The arguments are the same in both environments. */
  ghost predicate SameArguments(M: Memory, a: Env, b: Env) {
    forall i: nat :: M.argument(i, b) == M.argument(i, a)
  }

  /** An instruction that replaces what is on top of `stack` by one value, or throws. */
  ghost predicate Pushes(e: Effect, M: Memory, env: Env, stack: seq<Val>) {
    match e
    case Next(after, s) => |s| == |stack| + 1 && s[..|stack|] == stack && SameArguments(M, env, after)
    case Raise(_, _) => true
    case Goto(_, _, _) => false
  }

  ghost predicate NewArrayAt(o: Oracle, M: Memory, token: nat, env: Env, stack: seq<Val>, n: nat) {
    var e := o.exec(Key(NEWARR, token), env, stack + [Obj(n)]);
    && Pushes(e, M, env, stack)
    && (e.Next? ==> M.elements(e.env, e.stack[|stack|]) == seq(n, _ => Null))
  }

  ghost predicate BoxAt(o: Oracle, M: Memory, token: nat, env: Env, stack: seq<Val>, v: Val) {
    var e := o.exec(Key(BOX, token), env, stack + [v]);
    && Pushes(e, M, env, stack)
    && (e.Next? ==> e.stack[|stack|] == M.box(token, v) && forall a :: M.elements(e.env, a) == M.elements(env, a))
  }

  ghost predicate StoreElementAt(o: Oracle, M: Memory, env: Env, stack: seq<Val>, a: Val, i: nat, v: Val) {
    i < |M.elements(env, a)| ==>
      var e := o.exec(Key(STELEM_REF, 0), env, stack + [a, Obj(i), v]);
      match e
      case Next(after, s) =>
        s == stack && SameArguments(M, env, after) && M.elements(after, a) == M.elements(env, a)[i := v]
      case Raise(_, _) => true
      case Goto(_, _, _) => false
  }

  /** The instructions an array of that type is built with do what ECMA-335 says of them, or throw. */
  ghost predicate ArraysWork(o: Oracle, M: Memory, arrayType: nat) {
    && (forall i, env, stack: seq<Val> ::
          LoadsInt(i) ==> o.exec(KeyOf(i), env, stack) == Next(env, stack + [Obj(IntOf(i))]))
    && (forall env, stack: seq<Val>, v :: o.exec(Key(DUP, 0), env, stack + [v]) == Next(env, stack + [v, v]))
    && (forall env, stack, n :: NewArrayAt(o, M, arrayType, env, stack, n))
    && (forall token, env, stack, v :: BoxAt(o, M, token, env, stack, v))
    && (forall env, stack, a, i, v :: StoreElementAt(o, M, env, stack, a, i, v))
  }

  /** What belongs at index i of the array: parameter i, boxed if it is a value. */
  function ParameterItem(c: Caller, M: Memory, env: Env, i: nat): Val
    requires i < |c.args|
  {
    var v := Parameter(c, M, env, i);
    match c.args[i]
    case Value(token) => M.box(token, v)
    case _ => v
  }

  /** The array with its first k elements set. */
  function ItemsUpTo(c: Caller, M: Memory, env: Env, k: nat): seq<Val>
    requires k <= |c.args|
  {
    seq(|c.args|, i requires 0 <= i < |c.args| => if i < k then ParameterItem(c, M, env, i) else Null)
  }

  /** Array `a` is on top of `stack`, with these elements and the arguments of `env`; or something threw. */
  ghost predicate Holds(M: Memory, env: Env, stack: seq<Val>, a: Val, elements: seq<Val>, r: Ran) {
    match r
    case Through(g) => g.stack == stack + [a] && M.elements(g.env, a) == elements && SameArguments(M, env, g.env)
    case Failed(_, _, _) => true
    case Wedged => false
  }

  lemma OracleRuns(base: nat, o: Oracle, opcode: nat, bits: nat, f: Frame)
    requires opcode in {DUP, NEWARR, BOX, STELEM_REF}
    ensures RunOp(base, o, WithToken(opcode, bits), f)
            == match o.exec(Key(opcode, bits), f.env, f.stack)
               case Next(env, stack) => Through(Called(f, Key(opcode, bits)).(env := env, stack := stack))
               case Raise(env, exc) => Failed(0, Called(f, Key(opcode, bits)).(env := env), exc)
               case Goto(_, _, _) => Wedged
  {
  }

  lemma LoadIntRuns(base: nat, o: Oracle, M: Memory, arrayType: nat, n: nat, f: Frame)
    requires ArraysWork(o, M, arrayType) && n < 0x8000_0000
    ensures var r := RunOp(base, o, LoadInt32(n), f); r.Through? && r.f.stack == f.stack + [Obj(n)] && r.f.env == f.env
  {
    hide NewArrayAt, BoxAt, StoreElementAt, LoadsInt, IntOf;
    LoadInt32Loads(n);
    assert o.exec(KeyOf(LoadInt32(n)), f.env, f.stack) == Next(f.env, f.stack + [Obj(n)]);
  }

  lemma DupRuns(base: nat, o: Oracle, M: Memory, arrayType: nat, stack: seq<Val>, v: Val, f: Frame)
    requires ArraysWork(o, M, arrayType) && f.stack == stack + [v]
    ensures var r := RunOp(base, o, Bare(DUP), f); r.Through? && r.f.stack == stack + [v, v] && r.f.env == f.env
  {
    hide NewArrayAt, BoxAt, StoreElementAt, RunOp;
    OracleRuns(base, o, DUP, 0, f);
  }

  /** The block made of one instruction. */
  lemma OneRuns(base: nat, o: Oracle, op: Op, f: Frame)
    ensures RunOps(base, o, [op], 0, f)
            == match RunOp(base, o, op.i, f) case Through(g) => Through(g) case Failed(_, g, exc) => Failed(0, g, exc)
               case Wedged => Wedged
  {
    hide RunOp;
    assert [op][0] == op;
  }

  function ItemHead(p: Plan, i: nat): seq<Op> {
    [Op(Bare(DUP), 1, 2)] + ([Op(LoadInt32(i), 0, 1)] + [Op(LoadArgument(ArgIndex(p.receiver, i)), 0, 1)])
  }

  function ItemTail(p: Plan, i: nat): seq<Op>
    requires i < |p.args|
  {
    (if p.args[i].Boxed? then [Op(WithToken(BOX, p.args[i].token), 1, 1)] else []) + [Op(Bare(STELEM_REF), 3, 0)]
  }

  lemma ItemParts(p: Plan, i: nat)
    requires i < |p.args|
    ensures ArrayItemOps(p, i) == ItemHead(p, i) + ItemTail(p, i)
  {
    hide LoadInt32, LoadArgument;
  }

  /** Up to the load of the argument: array, array, index, argument. */
  lemma HeadRuns(c: Caller, p: Plan, o: Oracle, M: Memory, i: nat, stack: seq<Val>, a: Val, f: Frame)
    requires p == PlanOf(c, p.localCount, p.tokens)
    requires ArgumentsAre(o, M) && ArraysWork(o, M, p.tokens.objectType)
    requires f.stack == stack + [a] && i < |p.args| < 0xFFFF
    ensures var r := RunOps(p.localCount, o, ItemHead(p, i), 0, f);
            && r.Through? && r.f.env == f.env
            && r.f.stack == (stack + [a]) + [a, Obj(i), Parameter(c, M, f.env, i)]
  {
    hide RunOp, RunOps, ArgumentsAre, ArraysWork, LoadInt32, LoadArgument;
    var b, x := p.localCount, ArgIndex(p.receiver, i);
    var dup, index, load := Op(Bare(DUP), 1, 2), Op(LoadInt32(i), 0, 1), Op(LoadArgument(x), 0, 1);
    RunOpsAppend(b, o, [dup], [index] + [load], 0, f);
    OneRuns(b, o, dup, f);
    DupRuns(b, o, M, p.tokens.objectType, stack, a, f);
    var g := RunOp(b, o, dup.i, f).f;
    RunOpsAppend(b, o, [index], [load], 0, g);
    OneRuns(b, o, index, g);
    LoadIntRuns(b, o, M, p.tokens.objectType, i, g);
    var h := RunOp(b, o, index.i, g).f;
    OneRuns(b, o, load, h);
    LoadParameterRuns(c, b, o, M, i, h);
  }

  lemma BoxRuns(base: nat, o: Oracle, M: Memory, arrayType: nat, token: nat, stack: seq<Val>, v: Val, f: Frame)
    requires ArraysWork(o, M, arrayType) && f.stack == stack + [v]
    ensures var r := RunOps(base, o, [Op(WithToken(BOX, token), 1, 1)], 0, f);
            && !r.Wedged?
            && (r.Through? ==>
                 && r.f.stack == stack + [M.box(token, v)] && SameArguments(M, f.env, r.f.env)
                 && forall a :: M.elements(r.f.env, a) == M.elements(f.env, a))
  {
    hide NewArrayAt, StoreElementAt, RunOp, RunOps;
    OneRuns(base, o, Op(WithToken(BOX, token), 1, 1), f);
    OracleRuns(base, o, BOX, token, f);
    assert BoxAt(o, M, token, f.env, stack, v);
    var e := o.exec(Key(BOX, token), f.env, f.stack);
    if e.Next? {
      assert e.stack == e.stack[..|stack|] + [e.stack[|stack|]];
    }
  }

  lemma StoreElementRuns(base: nat, o: Oracle, M: Memory, arrayType: nat, stack: seq<Val>, a: Val, i: nat, v: Val,
                         f: Frame)
    requires ArraysWork(o, M, arrayType) && f.stack == (stack + [a]) + [a, Obj(i), v] && i < |M.elements(f.env, a)|
    ensures Holds(M, f.env, stack, a, M.elements(f.env, a)[i := v],
                  RunOps(base, o, [Op(Bare(STELEM_REF), 3, 0)], 0, f))
  {
    hide NewArrayAt, BoxAt, RunOp, RunOps;
    OneRuns(base, o, Op(Bare(STELEM_REF), 3, 0), f);
    OracleRuns(base, o, STELEM_REF, 0, f);
    assert StoreElementAt(o, M, f.env, stack + [a], a, i, v);
  }

  /** One element: index i of the array gets argument i, boxed if it has to be. */
  lemma ItemRuns(c: Caller, p: Plan, o: Oracle, M: Memory, i: nat, stack: seq<Val>, a: Val, f: Frame)
    requires p == PlanOf(c, p.localCount, p.tokens)
    requires ArgumentsAre(o, M) && ArraysWork(o, M, p.tokens.objectType)
    requires f.stack == stack + [a] && i < |p.args| < 0xFFFF
    requires i < |M.elements(f.env, a)|
    ensures Holds(M, f.env, stack, a, M.elements(f.env, a)[i := ParameterItem(c, M, f.env, i)],
                  RunOps(p.localCount, o, ArrayItemOps(p, i), 0, f))
  {
    hide RunOp, RunOps, ArgumentsAre, ArraysWork, ItemHead;
    var b := p.localCount;
    ItemParts(p, i);
    RunOpsAppend(b, o, ItemHead(p, i), ItemTail(p, i), 0, f);
    HeadRuns(c, p, o, M, i, stack, a, f);
    var g := RunOps(b, o, ItemHead(p, i), 0, f).f;
    var v := Parameter(c, M, f.env, i);
    var store := [Op(Bare(STELEM_REF), 3, 0)];
    if p.args[i].Boxed? {
      var box := [Op(WithToken(BOX, p.args[i].token), 1, 1)];
      var below := (stack + [a]) + [a, Obj(i)];
      assert g.stack == below + [v];
      RunOpsAppend(b, o, box, store, 0, g);
      BoxRuns(b, o, M, p.tokens.objectType, p.args[i].token, below, v, g);
      var r := RunOps(b, o, box, 0, g);
      if r.Through? {
        assert r.f.stack == (stack + [a]) + [a, Obj(i), M.box(p.args[i].token, v)];
        StoreElementRuns(b, o, M, p.tokens.objectType, stack, a, i, M.box(p.args[i].token, v), r.f);
      }
    } else {
      assert ItemTail(p, i) == store;
      StoreElementRuns(b, o, M, p.tokens.objectType, stack, a, i, v, g);
    }
  }

  /** The new array: one null element for every argument. */
  lemma NewArrayRuns(c: Caller, p: Plan, o: Oracle, M: Memory, f: Frame) returns (a: Val)
    requires ArraysWork(o, M, p.tokens.objectType) && |p.args| == |c.args| < 0xFFFF
    ensures Holds(M, f.env, f.stack, a, ItemsUpTo(c, M, f.env, 0), RunOps(p.localCount, o, ArrayOps(p, 0), 0, f))
  {
    hide RunOp, RunOps, BoxAt, StoreElementAt, LoadInt32;
    var b, n := p.localCount, |p.args|;
    var size, make := Op(LoadInt32(n), 0, 1), Op(WithToken(NEWARR, p.tokens.objectType), 1, 1);
    assert ArrayOps(p, 0) == [size] + [make];
    RunOpsAppend(b, o, [size], [make], 0, f);
    OneRuns(b, o, size, f);
    LoadIntRuns(b, o, M, p.tokens.objectType, n, f);
    var g := RunOp(b, o, size.i, f).f;
    OneRuns(b, o, make, g);
    OracleRuns(b, o, NEWARR, p.tokens.objectType, g);
    assert NewArrayAt(o, M, p.tokens.objectType, f.env, f.stack, n);
    var e := o.exec(Key(NEWARR, p.tokens.objectType), g.env, g.stack);
    a := Null;
    if e.Next? {
      a := e.stack[|f.stack|];
      assert e.stack == e.stack[..|f.stack|] + [a];
      assert seq(n, _ => Null) == ItemsUpTo(c, M, f.env, 0);
    }
  }

  /** From nine arguments on: the array BeginMethod gets holds argument i at index i, for every i. */
  lemma {:induction false} ArrayArgsRun(c: Caller, p: Plan, o: Oracle, M: Memory, k: nat, f: Frame) returns (a: Val)
    requires p == PlanOf(c, p.localCount, p.tokens)
    requires ArgumentsAre(o, M) && ArraysWork(o, M, p.tokens.objectType) && k <= |p.args| < 0xFFFF
    ensures Holds(M, f.env, f.stack, a, ItemsUpTo(c, M, f.env, k), RunOps(p.localCount, o, ArrayOps(p, k), 0, f))
  {
    hide RunOps, ArgumentsAre, ArraysWork, ArrayItemOps;
    if k == 0 {
      a := NewArrayRuns(c, p, o, M, f);
    } else {
      a := ArrayArgsRun(c, p, o, M, k - 1, f);
      RunOpsAppend(p.localCount, o, ArrayOps(p, k - 1), ArrayItemOps(p, k - 1), 0, f);
      var r := RunOps(p.localCount, o, ArrayOps(p, k - 1), 0, f);
      if r.Through? {
        ItemRuns(c, p, o, M, k - 1, f.stack, a, r.f);
        assert ParameterItem(c, M, r.f.env, k - 1) == ParameterItem(c, M, f.env, k - 1);
        assert ItemsUpTo(c, M, f.env, k) == ItemsUpTo(c, M, f.env, k - 1)[k - 1 := ParameterItem(c, M, f.env, k - 1)];
      }
    }
  }

  // ---- the instance

  /** Loading a struct from an address gives the struct, or throws. */
  ghost predicate StructsLoad(o: Oracle, M: Memory) {
    forall token: nat, env, stack: seq<Val>, v :: StructAt(o, M, token, env, stack, v)
  }

  predicate StructAt(o: Oracle, M: Memory, token: nat, env: Env, stack: seq<Val>, v: Val) {
    match o.exec(Key(LDOBJ, token), env, stack + [v])
    case Next(after, s) => after == env && s == stack + [M.struct(token, v, env)]
    case Raise(_, _) => true
    case Goto(_, _, _) => false
  }

  /** Null for a static method, the instance of a class, and the struct behind the instance of a struct. */
  function Instance(c: Caller, M: Memory, env: Env): Val {
    if c.isStatic then Null
    else if !c.valueType then M.argument(0, env)
    else M.struct(if c.typeSpec != 0x1b00_0000 then c.typeSpec else c.typeId, M.argument(0, env), env)
  }

  /** The instance is loaded for both callbacks, or loading it throws. */
  lemma InstanceRuns(c: Caller, p: Plan, o: Oracle, M: Memory, f: Frame)
    requires ArgumentsAre(o, M) && StructsLoad(o, M) && p == PlanOf(c, p.localCount, p.tokens)
    ensures var r := RunOps(p.localCount, o, ReceiverOps(p.receiver), 0, f);
            && !r.Wedged?
            && (r.Through? ==> r.f.stack == f.stack + [Instance(c, M, f.env)] && r.f.env == f.env)
  {
    hide RunOp, RunOps, LoadArgument, ArgumentsAre, StructAt;
    var b, load := p.localCount, Op(LoadArgument(0), 0, 1);
    if c.isStatic {
      var first := Op(Bare(LDNULL), 0, 1);
      assert ReceiverOps(p.receiver) == [first];
      OneRuns(b, o, first, f);
      NullRuns(b, o, f);
    } else {
      OneRuns(b, o, load, f);
      LoadArgumentRuns(b, o, M, 0, f);
      if c.valueType {
        var token := if c.typeSpec != TYPE_SPEC_NIL then c.typeSpec else c.typeId;
        var copy := Op(WithToken(LDOBJ, token), 1, 1);
        assert ReceiverOps(p.receiver) == [load] + [copy];
        var g := RunOp(b, o, load.i, f).f;
        RunOpsAppend(b, o, [load], [copy], 0, f);
        OneRuns(b, o, copy, g);
        StructRuns(b, o, M, token, f.stack, M.argument(0, f.env), g);
      } else {
        assert ReceiverOps(p.receiver) == [load];
      }
    }
  }

  lemma NullRuns(base: nat, o: Oracle, f: Frame)
    ensures RunOp(base, o, Bare(LDNULL), f) == Through(f.(stack := f.stack + [Null]))
  {
  }

  lemma StructRuns(base: nat, o: Oracle, M: Memory, token: nat, stack: seq<Val>, v: Val, f: Frame)
    requires StructsLoad(o, M) && f.stack == stack + [v]
    ensures var r := RunOp(base, o, WithToken(LDOBJ, token), f);
            && !r.Wedged?
            && (r.Through? ==> r.f.stack == stack + [M.struct(token, v, f.env)] && r.f.env == f.env)
  {
    assert StructAt(o, M, token, f.env, stack, v);
  }

  // ---- the locals

  /** A call that makes a value, and the store of it. */
  function CallThenStore(token: nat, index: nat): seq<Op> {
    [Op(WithToken(CALL, token), 0, 1), Op(StoreLocal(index), 1, 0)]
  }

  lemma CallStores(p: Plan, o: Oracle, token: nat, index: nat, f: Frame)
    requires p.localCount <= index < 0x1_0000 && index - p.localCount < |f.slots| && f.stack == []
    requires match o.exec(Key(CALL, token), f.env, [])
             case Next(_, after) => |after| == 1
             case Raise(_, _) => true
             case Goto(_, _, _) => false
    ensures var r := RunOps(p.localCount, o, CallThenStore(token, index), 0, f);
            match o.exec(Key(CALL, token), f.env, [])
            case Next(env, after) =>
              r.Through? && r.f.env == env && r.f.stack == [] && r.f.slots == f.slots[index - p.localCount := after[0]]
            case _ => r.Failed?
  {
    hide RunOp, StoreLocal, WithToken;
    var b, ops := p.localCount, CallThenStore(token, index);
    RunCall(b, o, token, f);
    if o.exec(Key(CALL, token), f.env, []).Next? {
      var e := o.exec(Key(CALL, token), f.env, []);
      var g := Called(f, Key(CALL, token)).(env := e.env, stack := e.stack);
      RunNext(b, o, ops, 0, f, g);
      RunStore(b, o, index, g);
      RunNext(b, o, ops, 1, g, RunOp(b, o, ops[1].i, g).f);
    }
  }

  /** A call of the begin region that takes nothing gives one value or throws. */
  lemma DefaultTyped(p: Plan, o: Oracle, k: nat, token: nat, env: Env)
    requires BlocksTyped(p, o) && k < |InitOps(p)| && InitOps(p)[k] == Op(WithToken(CALL, token), 0, 1)
    ensures match o.exec(Key(CALL, token), env, [])
            case Next(_, after) => |after| == 1
            case Raise(_, _) => true
            case Goto(_, _, _) => false
  {
    hide EndBlock, BlockOk, InitOps, ReceiverOps, ArgOps, BeginOps, KeyOf;
    assert BeginBlock(p)[k] == InitOps(p)[k];
    CallTyped(p, o, BeginBlock(p), k, env, []);
    KeyOfCall(token);
  }

  function NullThenStore(p: Plan): seq<Op> {
    [Op(Bare(LDNULL), 0, 1), Op(StoreLocal(ExceptionLocal(p)), 1, 0)]
  }

  lemma InitIs(p: Plan)
    ensures InitOps(p)
            == if p.isVoid then CallThenStore(p.tokens.voidDefault, p.localCount + 1) + NullThenStore(p)
               else CallThenStore(p.tokens.defaultValue, p.localCount)
                    + (CallThenStore(p.tokens.returnDefault, p.localCount + 2) + NullThenStore(p))
  {
    hide StoreLocal;
  }

  /**
   The result local starts with the answer of the call that makes its default, CallTargetReturn with that of its
   own, and the exception with null.
   */
  lemma InitStores(p: Plan, o: Oracle, f: Frame)
    requires BlocksTyped(p, o) && |f.slots| == SlotCount(p) && f.stack == [] && p.localCount + 4 <= 0x1_0000
    ensures var r := RunOps(p.localCount, o, InitOps(p), 0, f);
            !r.Wedged? && (r.Through? ==> r.f.stack == [] && Initialised(p, o, f, r.f))
  {
    hide RunOps, BlocksTyped, CallThenStore, NullThenStore;
    var b := p.localCount;
    InitIs(p);
    InitCalls(p);
    if p.isVoid {
      DefaultTyped(p, o, 0, p.tokens.voidDefault, f.env);
      CallStores(p, o, p.tokens.voidDefault, b + 1, f);
      var first := CallThenStore(p.tokens.voidDefault, b + 1);
      RunOpsAppend(b, o, first, NullThenStore(p), 0, f);
      if RunOps(b, o, first, 0, f).Through? {
        NullStored(p, o, RunOps(b, o, first, 0, f).f);
        assert NullThenStore(p) == [Op(Bare(LDNULL), 0, 1), Op(StoreLocal(ExceptionLocal(p)), 1, 0)] by { NullIs(p); }
      }
    } else {
      DefaultTyped(p, o, 0, p.tokens.defaultValue, f.env);
      CallStores(p, o, p.tokens.defaultValue, b, f);
      var first, second := CallThenStore(p.tokens.defaultValue, b), CallThenStore(p.tokens.returnDefault, b + 2);
      RunOpsAppend(b, o, first, second + NullThenStore(p), 0, f);
      var r := RunOps(b, o, first, 0, f);
      if r.Through? {
        DefaultTyped(p, o, 2, p.tokens.returnDefault, r.f.env);
        CallStores(p, o, p.tokens.returnDefault, b + 2, r.f);
        RunOpsAppend(b, o, second, NullThenStore(p), 0, r.f);
        var r2 := RunOps(b, o, second, 0, r.f);
        if r2.Through? {
          NullStored(p, o, r2.f);
          assert NullThenStore(p) == [Op(Bare(LDNULL), 0, 1), Op(StoreLocal(ExceptionLocal(p)), 1, 0)] by { NullIs(p); }
        }
      }
    }
  }

  lemma NullIs(p: Plan)
    ensures NullThenStore(p) == [Op(Bare(LDNULL), 0, 1), Op(StoreLocal(ExceptionLocal(p)), 1, 0)]
  {
  }

  lemma InitCalls(p: Plan)
    ensures |InitOps(p)| >= 4
    ensures p.isVoid ==> InitOps(p)[0] == Op(WithToken(CALL, p.tokens.voidDefault), 0, 1)
    ensures !p.isVoid ==> InitOps(p)[0] == Op(WithToken(CALL, p.tokens.defaultValue), 0, 1)
                          && InitOps(p)[2] == Op(WithToken(CALL, p.tokens.returnDefault), 0, 1)
  {
    hide StoreLocal;
  }

  /** The locals of g, after the defaults have been made in f. */
  predicate Initialised(p: Plan, o: Oracle, f: Frame, g: Frame)
    requires |f.slots| == SlotCount(p)
  {
    if p.isVoid then
      var d := o.exec(Key(CALL, p.tokens.voidDefault), f.env, []);
      d.Next? && |d.stack| == 1 && g.env == d.env && g.slots == [Null, d.stack[0], f.slots[2]]
    else
      var d := o.exec(Key(CALL, p.tokens.defaultValue), f.env, []);
      d.Next? && |d.stack| == 1
      && var e := o.exec(Key(CALL, p.tokens.returnDefault), d.env, []);
         e.Next? && |e.stack| == 1 && g.env == e.env && g.slots == [d.stack[0], Null, e.stack[0], f.slots[3]]
  }

  // ---- the calls

  /** Everything behind the locals' initialisation, up to the call of BeginMethod. */
  lemma ArgumentsRun(c: Caller, p: Plan, o: Oracle, M: Memory, f: Frame) returns (a: Val)
    requires p == PlanOf(c, p.localCount, p.tokens) && |c.args| < 0xFFFF && f.stack == []
    requires ArgumentsAre(o, M) && StructsLoad(o, M) && ArraysWork(o, M, p.tokens.objectType)
    ensures var r := RunOps(p.localCount, o, ReceiverOps(p.receiver) + ArgOps(p), 0, f);
            !r.Wedged? && (r.Through? ==> ArgumentsPassed(c, M, f.env, r.f.env, r.f.stack, a))
  {
    hide RunOps, ArgumentsAre, StructsLoad, ArraysWork, ReceiverOps, Instance, Parameter, PlanOf, FastArgOps, ArrayOps;
    var b := p.localCount;
    RunOpsAppend(b, o, ReceiverOps(p.receiver), ArgOps(p), 0, f);
    InstanceRuns(c, p, o, M, f);
    var r := RunOps(b, o, ReceiverOps(p.receiver), 0, f);
    a := Null;
    if r.Through? {
      if |c.args| < FASTPATH_COUNT {
        FastArgsRun(c, p, o, M, |c.args|, r.f);
      } else {
        a := ArrayArgsRun(c, p, o, M, |c.args|, r.f);
      }
    }
  }

  /**
   The instance and, below nine parameters, each of them in order; otherwise an array with parameter i at index i.
   The values are those of the environment `env`.
   */
  ghost predicate ArgumentsPassed(c: Caller, M: Memory, env: Env, after: Env, stack: seq<Val>, a: Val) {
    if |c.args| < 9 then stack == [Instance(c, M, env)] + Parameters(c, M, env, |c.args|)
    else stack == [Instance(c, M, env), a]
         && |M.elements(after, a)| == |c.args|
         && forall i :: 0 <= i < |c.args| ==> M.elements(after, a)[i] == ParameterItem(c, M, env, i)
  }

  /** BeginMethod is called with the instance and the parameters of the method. */
  lemma BeginMethodArguments(c: Caller, p: Plan, o: Oracle, M: Memory, f: Frame) returns (a: Val)
    requires BlocksTyped(p, o) && LogReturns(p, o) && |f.slots| == SlotCount(p) && f.stack == []
    requires p == PlanOf(c, p.localCount, p.tokens) && |c.args| < 0xFFFF && p.localCount + 4 <= 0x1_0000
    requires ArgumentsAre(o, M) && StructsLoad(o, M) && ArraysWork(o, M, p.tokens.objectType)
    ensures var init := RunOps(p.localCount, o, InitOps(p), 0, f);
            var pre := RunOps(p.localCount, o, BeginPre(p), 0, f);
            pre.Through? ==>
              && init.Through? && ArgumentsPassed(c, M, init.f.env, pre.f.env, pre.f.stack, a)
              && pre.f.trace + [Event(Key(CALL, p.tokens.begin), pre.f.env, pre.f.stack)]
                 <= AfterBegin(p, o, f).trace
  {
    hide RunOps, ArgumentsAre, StructsLoad, ArraysWork, InitOps, ReceiverOps, ArgOps, BlocksTyped, LogReturns,
      ArgumentsPassed, PlanOf, Initialised, AfterBegin;
    var b := p.localCount;
    InitStores(p, o, f);
    RunOpsAppend(b, o, InitOps(p), ReceiverOps(p.receiver) + ArgOps(p), 0, f);
    var init := RunOps(b, o, InitOps(p), 0, f);
    a := Null;
    if init.Through? {
      a := ArgumentsRun(c, p, o, M, init.f);
      BeginTraced(p, o, f);
    }
  }

  lemma BeginTraced(p: Plan, o: Oracle, f: Frame)
    requires BlocksTyped(p, o) && LogReturns(p, o) && |f.slots| == SlotCount(p) && f.stack == []
    requires p.localCount + 4 <= 0x1_0000
    ensures var pre := RunOps(p.localCount, o, BeginPre(p), 0, f);
            pre.Through? ==> pre.f.trace + [Event(BeginKey(p), pre.f.env, pre.f.stack)] <= AfterBegin(p, o, f).trace
  {
    hide RunOps, BeginPre, BeginOps, BeginBlock, EndBlock, BlockOk;
    var b := p.localCount;
    BlockRuns(b, o, BeginBlock(p), 0, f);
    BeginBlockParts(p);
    RunOpsAppend(b, o, BeginPre(p), BeginOps(p), 0, f);
    var pre := RunOps(b, o, BeginPre(p), 0, f);
    if pre.Through? {
      ShapeKept(b, o, BeginPre(p), 0, f);
      BeginOpsRun(p, o, pre.f);
    }
  }

  /** EndMethod is called with the instance, the result if there is one, the exception and the state. */
  lemma EndMethodArguments(c: Caller, p: Plan, o: Oracle, M: Memory, f: Frame)
    requires BlocksTyped(p, o) && LogReturns(p, o) && |f.slots| == SlotCount(p) && f.stack == []
    requires p == PlanOf(c, p.localCount, p.tokens) && p.localCount + 4 <= 0x1_0000
    requires ArgumentsAre(o, M) && StructsLoad(o, M)
    ensures var pre := RunOps(p.localCount, o, ReceiverOps(p.receiver), 0, f);
            var args := [Instance(c, M, f.env)]
                        + (if p.isVoid then [f.slots[0], f.slots[2]] else [f.slots[0], f.slots[1], f.slots[3]]);
            pre.Through? ==>
              && pre.f.env == f.env
              && pre.f.trace + [Event(Key(CALL, p.tokens.end), f.env, args)] <= AfterEnd(p, o, f).trace
  {
    hide RunOps, ArgumentsAre, StructsLoad, BlocksTyped, LogReturns, PlanOf, AfterEnd, ReceiverOps, Instance;
    InstanceRuns(c, p, o, M, f);
    var pre := RunOps(p.localCount, o, ReceiverOps(p.receiver), 0, f);
    if pre.Through? {
      EndRegion(p, o, f, pre.f);
      EndTraced(p, o, pre.f.(stack := pre.f.stack + EndArgs(p, f.slots)));
      assert pre.f.stack == [Instance(c, M, f.env)];
      assert pre.f.stack + EndArgs(p, f.slots)
          == [Instance(c, M, f.env)]
             + (if p.isVoid then [f.slots[0], f.slots[2]] else [f.slots[0], f.slots[1], f.slots[3]]);
    }
  }

  lemma EndTraced(p: Plan, o: Oracle, f: Frame)
    requires LogReturns(p, o) && |f.slots| == SlotCount(p) && !EndTail(p, o, f).Wedged?
    ensures f.trace + [Event(EndKey(p), f.env, f.stack)] <= AfterBlock(p, o, EndTail(p, o, f)).trace
  {
  }
}
