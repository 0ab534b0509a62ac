/** What the injected regions hand to the callbacks, how often they call them, and what becomes of the results. */
module CallTargetContract {
  import opened OpCodes
  import opened ILCode
  import opened ILMachine
  import opened CallTargetCode
  import opened StraightLine
  import opened CallTargetBody
  import opened CallTargetMeaning
  import opened CallTargetTheorem

  // ---- blocks in parts

  function Shifted(r: Ran, n: nat): Ran {
    if r.Failed? then r.(at := r.at + n) else r
  }

  /** A block after another one: it starts where the first ended, unless that failed. */
  function Then(base: nat, o: Oracle, r: Ran, n: nat, b: seq<Op>): Ran {
    if r.Through? then Shifted(RunOps(base, o, b, 0, r.f), n) else r
  }

  lemma {:induction false} RunOpsSecond(base: nat, o: Oracle, a: seq<Op>, b: seq<Op>, k: nat, f: Frame)
    requires k <= |b|
    ensures RunOps(base, o, a + b, |a| + k, f) == Shifted(RunOps(base, o, b, k, f), |a|)
    decreases |b| - k
  {
    hide RunOp;
    if k < |b| {
      assert (a + b)[|a| + k] == b[k];
      var r := RunOp(base, o, b[k].i, f);
      if r.Through? {
        RunOpsSecond(base, o, a, b, k + 1, r.f);
      }
    }
  }

  lemma {:induction false} RunOpsAppend(base: nat, o: Oracle, a: seq<Op>, b: seq<Op>, k: nat, f: Frame)
    requires k <= |a|
    ensures RunOps(base, o, a + b, k, f) == Then(base, o, RunOps(base, o, a, k, f), |a|, b)
    decreases |a| - k
  {
    hide RunOp;
    if k < |a| {
      assert (a + b)[k] == a[k];
      var r := RunOp(base, o, a[k].i, f);
      if r.Through? {
        RunOpsAppend(base, o, a, b, k + 1, r.f);
      }
    } else {
      RunOpsSecond(base, o, a, b, 0, f);
    }
  }

  // ---- what a block leaves alone

  predicate Stores(op: Op, index: nat) {
    LocalUseOf(op.i) == Store(index)
  }

  lemma OpKeepsSlot(base: nat, o: Oracle, op: Op, f: Frame, x: nat)
    requires x < |f.slots| && !Stores(op, base + x)
    ensures var r := RunOp(base, o, op.i, f);
            !r.Wedged? ==> |r.f.slots| == |f.slots| && r.f.slots[x] == f.slots[x]
  {
  }

  /** A local no instruction of a block stores keeps its value. */
  lemma {:induction false} SlotKept(base: nat, o: Oracle, ops: seq<Op>, k: nat, f: Frame, x: nat)
    requires k <= |ops| && x < |f.slots| && forall j :: 0 <= j < |ops| ==> !Stores(ops[j], base + x)
    ensures var r := RunOps(base, o, ops, k, f);
            !r.Wedged? ==> |r.f.slots| == |f.slots| && r.f.slots[x] == f.slots[x]
    decreases |ops| - k
  {
    hide RunOp, Stores;
    if k < |ops| {
      OpKeepsSlot(base, o, ops[k], f, x);
      var r := RunOp(base, o, ops[k].i, f);
      if r.Through? {
        SlotKept(base, o, ops, k + 1, r.f, x);
      }
    }
  }

  /** How often a key was executed. */
  function Count(trace: seq<Event>, key: Key): nat {
    if trace == [] then 0
    else Count(trace[..|trace| - 1], key) + if trace[|trace| - 1].key == key then 1 else 0
  }

  lemma {:induction false} CountAppend(a: seq<Event>, b: seq<Event>, key: Key)
    ensures Count(a + b, key) == Count(a, key) + Count(b, key)
  {
    if b == [] {
      assert a + b == a;
    } else {
      CountAppend(a, b[..|b| - 1], key);
      assert (a + b)[..|a + b| - 1] == a + b[..|b| - 1];
    }
  }

  lemma OpCounts(base: nat, o: Oracle, op: Op, f: Frame, key: Key)
    requires KeyOf(op.i) != key
    ensures var r := RunOp(base, o, op.i, f);
            !r.Wedged? ==> Count(r.f.trace, key) == Count(f.trace, key)
  {
    hide KeyOf;
    var e := Event(KeyOf(op.i), f.env, f.stack);
    assert (f.trace + [e])[..|f.trace|] == f.trace;
  }

  /** A block without a key's instruction does not execute it. */
  lemma {:induction false} BlockCounts(base: nat, o: Oracle, ops: seq<Op>, k: nat, f: Frame, key: Key)
    requires k <= |ops| && Free(ops, key)
    ensures var r := RunOps(base, o, ops, k, f);
            !r.Wedged? ==> Count(r.f.trace, key) == Count(f.trace, key)
    decreases |ops| - k
  {
    hide RunOp, KeyOf;
    if k < |ops| {
      OpCounts(base, o, ops[k], f, key);
      var r := RunOp(base, o, ops[k].i, f);
      if r.Through? {
        BlockCounts(base, o, ops, k + 1, r.f, key);
      }
    }
  }

  predicate Free(ops: seq<Op>, key: Key) {
    forall k :: 0 <= k < |ops| ==> KeyOf(ops[k].i) != key
  }

  // ---- single injected instructions

  lemma RunLoad(base: nat, o: Oracle, index: nat, f: Frame)
    requires base <= index < 0x1_0000 && index - base < |f.slots|
    ensures RunOp(base, o, LoadLocal(index), f) == Through(f.(stack := f.stack + [f.slots[index - base]]))
  {
  }

  lemma RunStore(base: nat, o: Oracle, index: nat, f: Frame)
    requires base <= index < 0x1_0000 && index - base < |f.slots| && f.stack != []
    ensures RunOp(base, o, StoreLocal(index), f)
            == Through(f.(stack := f.stack[..|f.stack| - 1], slots := f.slots[index - base := f.stack[|f.stack| - 1]]))
  {
  }

  lemma RunAddress(base: nat, o: Oracle, index: nat, f: Frame)
    requires base <= index < 0x1_0000 && index - base < |f.slots|
    ensures RunOp(base, o, LoadLocalAddress(index), f) == Through(f.(stack := f.stack + [Ref(f.slots[index - base])]))
  {
  }

  function Called(f: Frame, key: Key): Frame {
    f.(trace := f.trace + [Event(key, f.env, f.stack)])
  }

  lemma RunCall(base: nat, o: Oracle, token: nat, f: Frame)
    ensures RunOp(base, o, WithToken(CALL, token), f)
            == match o.exec(Key(CALL, token), f.env, f.stack)
               case Next(env, stack) => Through(Called(f, Key(CALL, token)).(env := env, stack := stack))
               case Raise(env, exc) => Failed(0, Called(f, Key(CALL, token)).(env := env), exc)
               case Goto(_, _, _) => Wedged
  {
  }

  lemma RunNext(base: nat, o: Oracle, ops: seq<Op>, k: nat, f: Frame, g: Frame)
    requires k < |ops| && RunOp(base, o, ops[k].i, f) == Through(g)
    ensures RunOps(base, o, ops, k, f) == RunOps(base, o, ops, k + 1, g)
  {
    hide RunOp;
  }

  lemma {:induction false} DepthPrefix(a: seq<Op>, b: seq<Op>, k: nat)
    requires k <= |a|
    ensures Depth(a + b, k) == Depth(a, k)
  {
    if k > 0 {
      DepthPrefix(a, b, k - 1);
      assert (a + b)[k - 1] == a[k - 1];
    }
  }

  /** The first part of a well-typed block is well typed. */
  lemma BlockPrefixOk(base: nat, slots: nat, o: Oracle, a: seq<Op>, b: seq<Op>)
    requires BlockOk(base, slots, o, a + b)
    ensures BlockOk(base, slots, o, a)
  {
    hide OpOk;
    forall k | 0 <= k < |a| ensures OpOk(base, slots, o, a[k]) {
      assert (a + b)[k] == a[k];
    }
    forall k: nat | k <= |a| ensures Depth(a, k) >= 0 {
      DepthPrefix(a, b, k);
      assert Depth(a + b, k) >= 0;
    }
  }

  // ---- the EndMethod region

  function EndKey(p: Plan): Key { Key(CALL, p.tokens.end) }
  function GetKey(p: Plan): Key { Key(CALL, p.tokens.getReturnValue) }
  function BeginKey(p: Plan): Key { Key(CALL, p.tokens.begin) }

  /** The injected callbacks are different members. */
  predicate TokensDistinct(t: Tokens) {
    && t.end !in {t.begin, t.logException, t.getReturnValue, t.defaultValue, t.returnDefault, t.voidDefault}
    && t.begin !in {t.logException, t.defaultValue, t.returnDefault, t.voidDefault}
  }

  function ExceptionSlot(p: Plan): nat { ExceptionLocal(p) - p.localCount }
  function ReturnStateSlot(p: Plan): nat { ReturnStateLocal(p) - p.localCount }
  function StateSlot(p: Plan): nat { StateLocal(p) - p.localCount }

  /** What EndMethod gets after the instance: the result local, the exception and BeginMethod's state. */
  function EndArgs(p: Plan, slots: seq<Val>): seq<Val>
    requires |slots| == SlotCount(p)
  {
    (if p.isVoid then [] else [slots[0]]) + [slots[ExceptionSlot(p)], slots[StateSlot(p)]]
  }

  lemma EndBlockParts(p: Plan)
    ensures EndBlock(p) == ReceiverOps(p.receiver) + (EndLoads(p) + EndRest(p))
  {
  }

  lemma EndLoadsRun(p: Plan, o: Oracle, f: Frame)
    requires |f.slots| == SlotCount(p) && p.localCount + 4 <= 0x1_0000
    ensures RunOps(p.localCount, o, EndLoads(p), 0, f) == Through(f.(stack := f.stack + EndArgs(p, f.slots)))
  {
    hide RunOp, LoadLocal;
    var b, ops := p.localCount, EndLoads(p);
    RunLoad(b, o, ExceptionLocal(p), f);
    var x := f.slots[ExceptionSlot(p)];
    if p.isVoid {
      var f1 := f.(stack := f.stack + [x]);
      RunLoad(b, o, StateLocal(p), f1);
      RunNext(b, o, ops, 0, f, f1);
      var f2 := f1.(stack := f1.stack + [f.slots[StateSlot(p)]]);
      RunNext(b, o, ops, 1, f1, f2);
      assert f2.stack == f.stack + EndArgs(p, f.slots);
    } else {
      RunLoad(b, o, ReturnLocal(p), f);
      var f1 := f.(stack := f.stack + [f.slots[0]]);
      RunNext(b, o, ops, 0, f, f1);
      RunLoad(b, o, ExceptionLocal(p), f1);
      var f2 := f1.(stack := f1.stack + [x]);
      RunNext(b, o, ops, 1, f1, f2);
      RunLoad(b, o, StateLocal(p), f2);
      var f3 := f2.(stack := f2.stack + [f.slots[StateSlot(p)]]);
      RunNext(b, o, ops, 2, f2, f3);
      assert f3.stack == f.stack + EndArgs(p, f.slots);
    }
  }

  /** The region from the call of EndMethod on, entered with the call's arguments on the stack. */
  function EndTail(p: Plan, o: Oracle, f: Frame): Ran
    requires |f.slots| == SlotCount(p)
  {
    var c := Called(f, EndKey(p));
    match o.exec(EndKey(p), f.env, f.stack)
    case Raise(env, exc) => Failed(0, c.(env := env), exc)
    case Goto(_, _, _) => Wedged
    case Next(env, stack) =>
      if |stack| != 1 then Wedged
      else
        var g := c.(env := env, stack := [], slots := f.slots[ReturnStateSlot(p) := stack[0]]);
        if p.isVoid then Through(g)
        else GetTail(p, o, g.(stack := [Ref(stack[0])]))
  }

  /** The call of GetReturnValue and the store of what it returns. */
  function GetTail(p: Plan, o: Oracle, f: Frame): Ran
    requires |f.slots| == SlotCount(p)
  {
    var c := Called(f, GetKey(p));
    match o.exec(GetKey(p), f.env, f.stack)
    case Raise(env, exc) => Failed(3, c.(env := env), exc)
    case Goto(_, _, _) => Wedged
    case Next(env, stack) =>
      if |stack| != 1 then Wedged else Through(c.(env := env, stack := [], slots := f.slots[0 := stack[0]]))
  }

  lemma GetTailRuns(p: Plan, o: Oracle, f: Frame)
    requires |f.slots| == SlotCount(p) && p.localCount + 4 <= 0x1_0000 && !p.isVoid && !GetTail(p, o, f).Wedged?
    ensures RunOps(p.localCount, o, EndRest(p), 3, f) == GetTail(p, o, f)
  {
    hide RunOp, LoadLocalAddress, StoreLocal, WithToken;
    var b, ops := p.localCount, EndRest(p);
    RunCall(b, o, p.tokens.getReturnValue, f);
    if o.exec(GetKey(p), f.env, f.stack).Next? {
      var g := Called(f, GetKey(p)).(env := o.exec(GetKey(p), f.env, f.stack).env,
                                     stack := o.exec(GetKey(p), f.env, f.stack).stack);
      RunNext(b, o, ops, 3, f, g);
      RunStore(b, o, ReturnLocal(p), g);
      RunNext(b, o, ops, 4, g, GetTail(p, o, f).f);
    }
  }

  lemma EndTailRuns(p: Plan, o: Oracle, f: Frame)
    requires |f.slots| == SlotCount(p) && p.localCount + 4 <= 0x1_0000 && !EndTail(p, o, f).Wedged?
    ensures RunOps(p.localCount, o, EndRest(p), 0, f) == EndTail(p, o, f)
  {
    hide RunOp, LoadLocalAddress, StoreLocal, WithToken, GetTail;
    var b, ops := p.localCount, EndRest(p);
    RunCall(b, o, p.tokens.end, f);
    if o.exec(EndKey(p), f.env, f.stack).Next? {
      var v := o.exec(EndKey(p), f.env, f.stack).stack;
      var g := Called(f, EndKey(p)).(env := o.exec(EndKey(p), f.env, f.stack).env, stack := v);
      RunNext(b, o, ops, 0, f, g);
      RunStore(b, o, ReturnStateLocal(p), g);
      var h := g.(stack := [], slots := f.slots[ReturnStateSlot(p) := v[0]]);
      RunNext(b, o, ops, 1, g, h);
      if !p.isVoid {
        RunAddress(b, o, ReturnStateLocal(p), h);
        var j := h.(stack := [Ref(v[0])]);
        RunNext(b, o, ops, 2, h, j);
        GetTailRuns(p, o, j);
      }
    }
  }

  lemma CallTyped(p: Plan, o: Oracle, ops: seq<Op>, k: nat, env: Env, stack: seq<Val>)
    requires BlockOk(p.localCount, SlotCount(p), o, ops) && k < |ops| && ops[k].i.opcode == CALL
    requires |stack| == ops[k].pops && ops[k].pushes == 1
    ensures match o.exec(KeyOf(ops[k].i), env, stack)
            case Next(_, after) => |after| == 1
            case Raise(_, _) => true
            case Goto(_, _, _) => false
  {
    assert OpOk(p.localCount, SlotCount(p), o, ops[k]);
    assert LocalUseOf(ops[k].i).NoLocal?;
    assert TypedAt(o, ops[k], env, stack);
  }

  lemma EndTailTyped(p: Plan, o: Oracle, f: Frame)
    requires BlocksTyped(p, o) && |f.slots| == SlotCount(p) && |f.stack| == if p.isVoid then 3 else 4
    ensures !EndTail(p, o, f).Wedged?
  {
    hide BeginBlock, EndBlock, LoadLocal, StoreLocal, LoadLocalAddress, BlockOk, KeyOf;
    EndBlockParts(p);
    var r := |ReceiverOps(p.receiver)| + |EndLoads(p)|;
    assert EndBlock(p)[r] == EndRest(p)[0];
    CallTyped(p, o, EndBlock(p), r, f.env, f.stack);
    KeyOfCall(p.tokens.end);
    if !p.isVoid && o.exec(EndKey(p), f.env, f.stack).Next? {
      var env, v := o.exec(EndKey(p), f.env, f.stack).env, o.exec(EndKey(p), f.env, f.stack).stack;
      assert EndBlock(p)[r + 3] == EndRest(p)[3];
      CallTyped(p, o, EndBlock(p), r + 3, env, [Ref(v[0])]);
      KeyOfCall(p.tokens.getReturnValue);
    }
  }

  lemma KeyOfCall(token: nat)
    ensures KeyOf(WithToken(CALL, token)) == Key(CALL, token)
  {
  }

  lemma ReceiverStoresNothing(r: Receiver, index: nat, key: Key)
    requires key.opcode == CALL
    ensures forall j :: 0 <= j < |ReceiverOps(r)| ==> !Stores(ReceiverOps(r)[j], index)
    ensures Free(ReceiverOps(r), key)
  {
  }

  lemma ReceiverDepth(r: Receiver)
    ensures Depth(ReceiverOps(r), |ReceiverOps(r)|) == 1
  {
    hide LoadArgument;
    assert Depth(ReceiverOps(r), 1) == 1;
  }

  /** What EndMethod's region leaves, once the instance is on the stack: the call, and what follows it. */
  lemma EndRegion(p: Plan, o: Oracle, f: Frame, g: Frame)
    requires BlocksTyped(p, o) && LogReturns(p, o) && |f.slots| == SlotCount(p) && f.stack == []
    requires p.localCount + 4 <= 0x1_0000
    requires RunOps(p.localCount, o, ReceiverOps(p.receiver), 0, f) == Through(g)
    ensures |g.stack| == 1 && g.slots == f.slots
    ensures var r := EndTail(p, o, g.(stack := g.stack + EndArgs(p, f.slots)));
            !r.Wedged? && AfterEnd(p, o, f) == AfterBlock(p, o, r)
  {
    hide BeginBlock, EndBlock, RunOps, ReceiverOps, BlockOk, EndLoads, EndRest, EndTail;
    EndBlockParts(p);
    var b := p.localCount;
    ReceiverRuns(p, o, f);
    var h := g.(stack := g.stack + EndArgs(p, f.slots));
    EndLoadsRun(p, o, g);
    EndTailTyped(p, o, h);
    EndTailRuns(p, o, h);
    BlockRuns(b, o, EndBlock(p), 0, f);
    RunOpsAppend(b, o, ReceiverOps(p.receiver), EndLoads(p) + EndRest(p), 0, f);
    RunOpsAppend(b, o, EndLoads(p), EndRest(p), 0, g);
  }

  lemma CountOne(trace: seq<Event>, e: Event, key: Key)
    ensures Count(trace + [e], key) == Count(trace, key) + if e.key == key then 1 else 0
  {
    assert (trace + [e])[..|trace|] == trace;
  }

  lemma EndTailCounts(p: Plan, o: Oracle, f: Frame)
    requires LogReturns(p, o) && |f.slots| == SlotCount(p) && TokensDistinct(p.tokens)
    requires !EndTail(p, o, f).Wedged?
    ensures Count(AfterBlock(p, o, EndTail(p, o, f)).trace, EndKey(p)) == Count(f.trace, EndKey(p)) + 1
  {
    hide Count;
    var c := Called(f, EndKey(p));
    CountOne(f.trace, Event(EndKey(p), f.env, f.stack), EndKey(p));
    match o.exec(EndKey(p), f.env, f.stack) {
      case Raise(env, exc) => CountOne(c.trace, Event(LogKey(p), env, [exc]), EndKey(p));
      case Next(env, stack) =>
        if !p.isVoid {
          var d := c.trace + [Event(GetKey(p), env, [Ref(stack[0])])];
          CountOne(c.trace, Event(GetKey(p), env, [Ref(stack[0])]), EndKey(p));
          match o.exec(GetKey(p), env, [Ref(stack[0])]) {
            case Raise(env2, exc) => CountOne(d, Event(LogKey(p), env2, [exc]), EndKey(p));
            case _ =>
          }
        }
      case _ =>
    }
  }

  /** Loading the instance is typed, and changes no local and calls nothing even when it fails. */
  lemma ReceiverRuns(p: Plan, o: Oracle, f: Frame)
    requires BlocksTyped(p, o) && |f.slots| == SlotCount(p) && f.stack == []
    ensures var pre := RunOps(p.localCount, o, ReceiverOps(p.receiver), 0, f);
            && !pre.Wedged? && pre.f.slots == f.slots
            && (forall key: Key :: key.opcode == CALL ==> Count(pre.f.trace, key) == Count(f.trace, key))
            && (pre.Through? ==> |pre.f.stack| == 1)
  {
    hide BeginBlock, RunOps, ReceiverOps, BlockOk, Stores, Free;
    EndBlockParts(p);
    var a := ReceiverOps(p.receiver);
    BlockPrefixOk(p.localCount, SlotCount(p), o, a, EndLoads(p) + EndRest(p));
    BlockRuns(p.localCount, o, a, 0, f);
    ReceiverDepth(p.receiver);
    var g := RunOps(p.localCount, o, a, 0, f).f;
    forall x | 0 <= x < |f.slots| ensures g.slots[x] == f.slots[x] {
      ReceiverStoresNothing(p.receiver, p.localCount + x, EndKey(p));
      SlotKept(p.localCount, o, a, 0, f, x);
    }
    forall key: Key | key.opcode == CALL ensures Count(g.trace, key) == Count(f.trace, key) {
      ReceiverStoresNothing(p.receiver, 0, key);
      BlockCounts(p.localCount, o, a, 0, f, key);
    }
  }

  /** If loading the instance fails, that is all the region does: the exception is logged. */
  lemma EndRegionFails(p: Plan, o: Oracle, f: Frame)
    requires BlocksTyped(p, o) && LogReturns(p, o) && |f.slots| == SlotCount(p) && f.stack == []
    requires RunOps(p.localCount, o, ReceiverOps(p.receiver), 0, f).Failed?
    ensures AfterEnd(p, o, f) == AfterBlock(p, o, RunOps(p.localCount, o, ReceiverOps(p.receiver), 0, f))
  {
    hide BeginBlock, EndBlock, RunOps, ReceiverOps, BlockOk, EndLoads, EndRest;
    EndBlockParts(p);
    BlockRuns(p.localCount, o, EndBlock(p), 0, f);
    RunOpsAppend(p.localCount, o, ReceiverOps(p.receiver), EndLoads(p) + EndRest(p), 0, f);
  }

  /** What the result local holds after EndMethod, called with `args`, if it held `own` before. */
  function ResultOf(p: Plan, o: Oracle, env: Env, args: seq<Val>, own: Val): Val {
    match o.exec(EndKey(p), env, args)
    case Next(env2, answer) =>
      if |answer| != 1 then own
      else
        (match o.exec(GetKey(p), env2, [Ref(answer[0])])
         case Next(_, v) => if |v| == 1 then v[0] else own
         case _ => own)
    case _ => own
  }

  /**
   EndMethod is called at most once: exactly once when the instance has been loaded, with it, the result, the
   exception and BeginMethod's state, and the result local then holds what GetReturnValue gave for EndMethod's
   answer, or is unchanged if either threw; not at all when loading the instance fails, which is logged and changes
   no local.
   */
  lemma EndMethodOnce(p: Plan, o: Oracle, f: Frame)
    requires BlocksTyped(p, o) && LogReturns(p, o) && |f.slots| == SlotCount(p) && f.stack == []
    requires p.localCount + 4 <= 0x1_0000 && TokensDistinct(p.tokens)
    ensures var pre := RunOps(p.localCount, o, ReceiverOps(p.receiver), 0, f);
            var h := AfterEnd(p, o, f);
            && !pre.Wedged? && |h.slots| == SlotCount(p)
            && Count(h.trace, EndKey(p)) == Count(f.trace, EndKey(p)) + (if pre.Through? then 1 else 0)
            && (pre.Failed? ==> h == AfterBlock(p, o, pre) && h.slots == f.slots)
            && (pre.Through? ==>
                 |pre.f.stack| == 1
                 && (!p.isVoid ==>
                      h.slots[0] == ResultOf(p, o, pre.f.env, pre.f.stack + EndArgs(p, f.slots), f.slots[0])))
  {
    hide BeginBlock, EndBlock, RunOps, ReceiverOps, BlockOk, Count, EndArgs, AfterEnd;
    var pre := RunOps(p.localCount, o, ReceiverOps(p.receiver), 0, f);
    ReceiverRuns(p, o, f);
    if pre.Failed? {
      EndRegionFails(p, o, f);
      LogCounts(p, o, pre, EndKey(p));
    } else {
      EndRegion(p, o, f, pre.f);
      EndTailCounts(p, o, pre.f.(stack := pre.f.stack + EndArgs(p, f.slots)));
    }
  }

  // ---- the BeginMethod region

  /** Neither a store to a local nor a call. */
  predicate Quiet(ops: seq<Op>) {
    forall j :: 0 <= j < |ops| ==> !LocalUseOf(ops[j].i).Store? && ops[j].i.opcode != CALL
  }

  lemma QuietLoads(index: nat, value: int)
    ensures Quiet([Op(LoadArgument(index), 0, 1)]) && Quiet([Op(LoadInt32(value), 0, 1)])
  {
  }

  lemma QuietItem(p: Plan, i: nat)
    requires i < |p.args|
    ensures Quiet(ArrayItemOps(p, i))
  {
    hide LoadArgument, LoadInt32;
    QuietLoads(ArgIndex(p.receiver, i), i);
    assert Quiet([Op(LoadArgument(ArgIndex(p.receiver, i)), 0, 1)]);
    var ops := ArrayItemOps(p, i);
    assert ops[1] == [Op(LoadInt32(i), 0, 1)][0];
    assert ops[2] == [Op(LoadArgument(ArgIndex(p.receiver, i)), 0, 1)][0];
  }

  lemma {:induction false} QuietArrays(p: Plan, k: nat)
    requires k <= |p.args|
    ensures Quiet(ArrayOps(p, k))
  {
    hide LoadInt32, ArrayItemOps;
    if k == 0 {
      QuietLoads(0, |p.args|);
      assert ArrayOps(p, 0)[0] == [Op(LoadInt32(|p.args|), 0, 1)][0];
    } else {
      QuietArrays(p, k - 1);
      QuietItem(p, k - 1);
    }
  }

  lemma {:induction false} QuietFast(p: Plan, k: nat)
    requires k <= |p.args|
    ensures Quiet(FastArgOps(p, k))
  {
    hide LoadArgument;
    if k > 0 {
      QuietFast(p, k - 1);
      QuietLoads(ArgIndex(p.receiver, k - 1), 0);
      assert Quiet([Op(LoadArgument(ArgIndex(p.receiver, k - 1)), 0, 1)]);
    }
  }

  lemma QuietMiddle(p: Plan)
    ensures Quiet(ReceiverOps(p.receiver) + ArgOps(p))
  {
    hide FastArgOps, ArrayOps;
    QuietFast(p, |p.args|);
    QuietArrays(p, |p.args|);
    assert Quiet(ReceiverOps(p.receiver));
  }

  lemma QuietKeeps(base: nat, o: Oracle, ops: seq<Op>, f: Frame)
    requires Quiet(ops)
    ensures var r := RunOps(base, o, ops, 0, f);
            !r.Wedged? ==> (forall key: Key :: key.opcode == CALL ==> Count(r.f.trace, key) == Count(f.trace, key))
                           && r.f.slots == f.slots
  {
    hide RunOps, LocalUseOf;
    var r := RunOps(base, o, ops, 0, f);
    if !r.Wedged? {
      forall key: Key | key.opcode == CALL ensures Count(r.f.trace, key) == Count(f.trace, key) {
        BlockCounts(base, o, ops, 0, f, key);
      }
      ShapeKept(base, o, ops, 0, f);
      forall x | 0 <= x < |f.slots| ensures r.f.slots[x] == f.slots[x] {
        SlotKept(base, o, ops, 0, f, x);
      }
    }
  }

  lemma {:induction false} ShapeKept(base: nat, o: Oracle, ops: seq<Op>, k: nat, f: Frame)
    requires k <= |ops|
    ensures var r := RunOps(base, o, ops, k, f); !r.Wedged? ==> |r.f.slots| == |f.slots|
    decreases |ops| - k
  {
    hide RunOp;
    if k < |ops| {
      assert !RunOp(base, o, ops[k].i, f).Wedged? ==> |RunOp(base, o, ops[k].i, f).f.slots| == |f.slots| by {
        OneShape(base, o, ops[k].i, f);
      }
      var r := RunOp(base, o, ops[k].i, f);
      if r.Through? {
        ShapeKept(base, o, ops, k + 1, r.f);
      }
    }
  }

  lemma OneShape(base: nat, o: Oracle, i: Instr, f: Frame)
    ensures var r := RunOp(base, o, i, f); !r.Wedged? ==> |r.f.slots| == |f.slots|
  {
  }

  /** Setting the locals up never calls BeginMethod or EndMethod. */
  lemma InitCounts(p: Plan, o: Oracle, f: Frame, key: Key)
    requires TokensDistinct(p.tokens) && key in {BeginKey(p), EndKey(p)}
    ensures var r := RunOps(p.localCount, o, InitOps(p), 0, f);
            !r.Wedged? ==> Count(r.f.trace, key) == Count(f.trace, key)
  {
    hide RunOps, Count;
    assert Free(InitOps(p), key) by {
      StoreKeys(ReturnLocal(p));
      StoreKeys(ExceptionLocal(p));
      StoreKeys(ReturnStateLocal(p));
      hide StoreLocal;
    }
    BlockCounts(p.localCount, o, InitOps(p), 0, f, key);
  }

  lemma StoreKeys(index: nat)
    ensures KeyOf(StoreLocal(index)).opcode != CALL
  {
  }

  lemma BeginBlockParts(p: Plan)
    ensures BeginBlock(p) == BeginPre(p) + BeginOps(p)
  {
  }

  lemma PreCounts(p: Plan, o: Oracle, f: Frame, key: Key)
    requires TokensDistinct(p.tokens) && key in {BeginKey(p), EndKey(p)}
    ensures var r := RunOps(p.localCount, o, BeginPre(p), 0, f);
            !r.Wedged? ==> Count(r.f.trace, key) == Count(f.trace, key)
  {
    hide RunOps, Count, InitOps, ReceiverOps, ArgOps, Quiet;
    var m := ReceiverOps(p.receiver) + ArgOps(p);
    RunOpsAppend(p.localCount, o, InitOps(p), m, 0, f);
    InitCounts(p, o, f, key);
    QuietMiddle(p);
    var r := RunOps(p.localCount, o, InitOps(p), 0, f);
    if r.Through? {
      QuietKeeps(p.localCount, o, m, r.f);
    }
  }

  // ---- the exception local

  /** All but the last two instructions of InitOps. */
  function InitHead(p: Plan): seq<Op> {
    if p.isVoid then
      [Op(WithToken(CALL, p.tokens.voidDefault), 0, 1), Op(StoreLocal(ReturnStateLocal(p)), 1, 0)]
    else
      [Op(WithToken(CALL, p.tokens.defaultValue), 0, 1), Op(StoreLocal(ReturnLocal(p)), 1, 0),
       Op(WithToken(CALL, p.tokens.returnDefault), 0, 1), Op(StoreLocal(ReturnStateLocal(p)), 1, 0)]
  }

  lemma StoresOnly(index: nat, other: nat)
    requires index < 0x1_0000
    ensures Stores(Op(StoreLocal(index), 1, 0), other) == (index == other)
  {
  }

  lemma InitHeadKeeps(p: Plan)
    requires p.localCount + 4 <= 0x1_0000
    ensures forall j :: 0 <= j < |InitHead(p)| ==> !Stores(InitHead(p)[j], ExceptionLocal(p))
  {
    StoresOnly(ReturnStateLocal(p), ExceptionLocal(p));
    StoresOnly(ReturnLocal(p), ExceptionLocal(p));
    hide StoreLocal;
  }

  /** The last two instructions of InitOps set the exception local to null. */
  lemma NullStored(p: Plan, o: Oracle, f: Frame)
    requires |f.slots| == SlotCount(p) && p.localCount + 4 <= 0x1_0000
    ensures var r := RunOps(p.localCount, o, [Op(Bare(LDNULL), 0, 1), Op(StoreLocal(ExceptionLocal(p)), 1, 0)], 0, f);
            r == Through(f.(slots := f.slots[ExceptionSlot(p) := Null]))
  {
    hide StoreLocal;
    var ops := [Op(Bare(LDNULL), 0, 1), Op(StoreLocal(ExceptionLocal(p)), 1, 0)];
    var g := f.(stack := f.stack + [Null]);
    assert RunOp(p.localCount, o, ops[0].i, f) == Through(g);
    RunStore(p.localCount, o, ExceptionLocal(p), g);
    hide RunOp;
    RunNext(p.localCount, o, ops, 0, f, g);
    RunNext(p.localCount, o, ops, 1, g, RunOp(p.localCount, o, ops[1].i, g).f);
  }

  lemma InitLeavesNull(p: Plan, o: Oracle, f: Frame)
    requires |f.slots| == SlotCount(p) && p.localCount + 4 <= 0x1_0000 && f.slots[ExceptionSlot(p)] == Null
    ensures var r := RunOps(p.localCount, o, InitOps(p), 0, f);
            !r.Wedged? ==> |r.f.slots| == SlotCount(p) && r.f.slots[ExceptionSlot(p)] == Null
  {
    hide RunOps, InitHead, Stores;
    var tail := [Op(Bare(LDNULL), 0, 1), Op(StoreLocal(ExceptionLocal(p)), 1, 0)];
    assert InitOps(p) == InitHead(p) + tail by { InitParts(p); }
    RunOpsAppend(p.localCount, o, InitHead(p), tail, 0, f);
    InitHeadKeeps(p);
    SlotKept(p.localCount, o, InitHead(p), 0, f, ExceptionSlot(p));
    var r := RunOps(p.localCount, o, InitHead(p), 0, f);
    if r.Through? {
      NullStored(p, o, r.f);
    }
  }

  lemma InitParts(p: Plan)
    ensures InitOps(p) == InitHead(p) + [Op(Bare(LDNULL), 0, 1), Op(StoreLocal(ExceptionLocal(p)), 1, 0)]
  {
    hide StoreLocal;
  }

  lemma BeginOpsKeep(p: Plan)
    requires p.localCount + 4 <= 0x1_0000
    ensures forall j :: 0 <= j < |BeginOps(p)| ==> !Stores(BeginOps(p)[j], ExceptionLocal(p))
  {
    StoresOnly(StateLocal(p), ExceptionLocal(p));
    hide StoreLocal;
  }

  /** However BeginMethod's region ends, the exception local is null when the body starts. */
  lemma NoExceptionBeforeBody(p: Plan, o: Oracle, f: Frame)
    requires BlocksTyped(p, o) && LogReturns(p, o) && |f.slots| == SlotCount(p) && f.stack == []
    requires p.localCount + 4 <= 0x1_0000 && f.slots[ExceptionSlot(p)] == Null
    ensures |AfterBegin(p, o, f).slots| == SlotCount(p) && AfterBegin(p, o, f).slots[ExceptionSlot(p)] == Null
  {
    hide RunOps, InitOps, ReceiverOps, ArgOps, BeginOps, BeginBlock, EndBlock, BlockOk, Quiet, Stores;
    var b, m := p.localCount, ReceiverOps(p.receiver) + ArgOps(p);
    BlockRuns(b, o, BeginBlock(p), 0, f);
    BeginBlockParts(p);
    RunOpsAppend(b, o, BeginPre(p), BeginOps(p), 0, f);
    RunOpsAppend(b, o, InitOps(p), m, 0, f);
    InitLeavesNull(p, o, f);
    var r := RunOps(b, o, InitOps(p), 0, f);
    if r.Through? {
      QuietMiddle(p);
      QuietKeeps(b, o, m, r.f);
    }
    var q := RunOps(b, o, BeginPre(p), 0, f);
    if q.Through? {
      BeginOpsKeep(p);
      SlotKept(b, o, BeginOps(p), 0, q.f, ExceptionSlot(p));
    }
  }

  // ---- the call of BeginMethod

  /** The region from the call of BeginMethod on. */
  lemma BeginOpsRun(p: Plan, o: Oracle, f: Frame)
    requires |f.slots| == SlotCount(p) && p.localCount + 4 <= 0x1_0000
    requires !RunOps(p.localCount, o, BeginOps(p), 0, f).Wedged?
    ensures var r := RunOps(p.localCount, o, BeginOps(p), 0, f);
            match o.exec(BeginKey(p), f.env, f.stack)
            case Raise(env, exc) => r == Failed(0, Called(f, BeginKey(p)).(env := env), exc)
            case Goto(_, _, _) => false
            case Next(env, answer) =>
              answer != [] && r.Through? && r.f.trace == Called(f, BeginKey(p)).trace
              && r.f.slots == f.slots[StateSlot(p) := answer[|answer| - 1]]
  {
    hide RunOp, StoreLocal, WithToken;
    var b, ops := p.localCount, BeginOps(p);
    RunCall(b, o, p.tokens.begin, f);
    if o.exec(BeginKey(p), f.env, f.stack).Next? {
      var answer := o.exec(BeginKey(p), f.env, f.stack).stack;
      var g := Called(f, BeginKey(p)).(env := o.exec(BeginKey(p), f.env, f.stack).env, stack := answer);
      RunNext(b, o, ops, 0, f, g);
      if answer != [] {
        RunStore(b, o, StateLocal(p), g);
        RunNext(b, o, ops, 1, g, RunOp(b, o, ops[1].i, g).f);
      } else {
        StoreUnderflows(b, o, StateLocal(p), g);
      }
    }
  }

  lemma StoreUnderflows(base: nat, o: Oracle, index: nat, f: Frame)
    requires base <= index < 0x1_0000 && f.stack == []
    ensures RunOp(base, o, StoreLocal(index), f).Wedged?
  {
  }

  /**
   BeginMethod is called at most once: exactly once when everything before it ran through, and then its answer is
   the state EndMethod gets; otherwise not at all. EndMethod is not called.
   */
  lemma BeginMethodOnce(p: Plan, o: Oracle, f: Frame)
    requires BlocksTyped(p, o) && LogReturns(p, o) && |f.slots| == SlotCount(p) && f.stack == []
    requires p.localCount + 4 <= 0x1_0000 && TokensDistinct(p.tokens)
    ensures var pre := RunOps(p.localCount, o, BeginPre(p), 0, f);
            var h := AfterBegin(p, o, f);
            && !pre.Wedged? && |h.slots| == SlotCount(p) && |pre.f.slots| == SlotCount(p)
            && Count(h.trace, BeginKey(p)) == Count(f.trace, BeginKey(p)) + (if pre.Through? then 1 else 0)
            && Count(h.trace, EndKey(p)) == Count(f.trace, EndKey(p))
            && (pre.Through? ==>
                 match o.exec(BeginKey(p), pre.f.env, pre.f.stack)
                 case Raise(_, _) => h.slots == pre.f.slots
                 case Goto(_, _, _) => false
                 case Next(_, answer) => answer != [] && h.slots[StateSlot(p)] == answer[|answer| - 1])
  {
    hide RunOps, BeginPre, BeginOps, BeginBlock, EndBlock, BlockOk, Count;
    var b := p.localCount;
    BlockRuns(b, o, BeginBlock(p), 0, f);
    BeginBlockParts(p);
    RunOpsAppend(b, o, BeginPre(p), BeginOps(p), 0, f);
    ShapeKept(b, o, BeginPre(p), 0, f);
    PreCounts(p, o, f, BeginKey(p));
    PreCounts(p, o, f, EndKey(p));
    var pre := RunOps(b, o, BeginPre(p), 0, f);
    if pre.Through? {
      BeginOpsRun(p, o, pre.f);
      BeginTailCounts(p, o, pre.f, BeginKey(p));
      BeginTailCounts(p, o, pre.f, EndKey(p));
    } else {
      LogCounts(p, o, pre, BeginKey(p));
      LogCounts(p, o, pre, EndKey(p));
    }
  }

  lemma LogCounts(p: Plan, o: Oracle, r: Ran, key: Key)
    requires TokensDistinct(p.tokens) && key in {BeginKey(p), EndKey(p)} && LogReturns(p, o) && !r.Wedged?
    ensures Count(AfterBlock(p, o, r).trace, key) == Count(r.f.trace, key)
    ensures AfterBlock(p, o, r).slots == r.f.slots
  {
    hide Count;
    if r.Failed? {
      CountOne(r.f.trace, Event(LogKey(p), r.f.env, [r.exc]), key);
    }
  }

  lemma BeginTailCounts(p: Plan, o: Oracle, f: Frame, key: Key)
    requires TokensDistinct(p.tokens) && key in {BeginKey(p), EndKey(p)} && LogReturns(p, o)
    requires |f.slots| == SlotCount(p) && p.localCount + 4 <= 0x1_0000
    requires !RunOps(p.localCount, o, BeginOps(p), 0, f).Wedged?
    ensures var h := AfterBlock(p, o, RunOps(p.localCount, o, BeginOps(p), 0, f));
            Count(h.trace, key) == Count(f.trace, key) + if key == BeginKey(p) then 1 else 0
  {
    hide RunOps, BeginOps, Count;
    BeginOpsRun(p, o, f);
    CountOne(f.trace, Event(BeginKey(p), f.env, f.stack), key);
    LogCounts(p, o, RunOps(p.localCount, o, BeginOps(p), 0, f), key);
  }

  // ---- the contract of a rewritten method

  /** The result local before EndMethod's region: the body's value, or the default if control was sent to the return. */
  lemma OwnResult(p: Plan, oracle: Oracle, env: Env, body: State, sent: bool)
    requires LogReturns(p, oracle) && BlocksTyped(p, oracle) && body.Done? && !p.isVoid
    requires body.outcome.Returned? && |body.outcome.stack| == 1
    ensures |AfterBegin(p, oracle, Start(p, env)).slots| == SlotCount(p)
    ensures BeforeEnd(p, oracle, env, body, sent).slots[0]
            == if sent then AfterBegin(p, oracle, Start(p, env)).slots[0] else body.outcome.stack[0]
  {
    hide BlocksTyped, LogReturns, AfterBegin;
    AfterBeginShape(p, oracle, Start(p, env));
  }

  /** What EndMethod gets after a body: its result (or the default), its exception (or null), and the state. */
  lemma EndArgsAfterBody(p: Plan, oracle: Oracle, env: Env, body: State, sent: bool)
    requires LogReturns(p, oracle) && BlocksTyped(p, oracle) && body.Done? && p.localCount + 4 <= 0x1_0000
    requires body.outcome.Returned? ==> |body.outcome.stack| == if p.isVoid then 0 else 1
    ensures |AfterBegin(p, oracle, Start(p, env)).slots| == SlotCount(p)
    ensures var f1 := AfterBegin(p, oracle, Start(p, env));
            EndArgs(p, BeforeEnd(p, oracle, env, body, sent).slots)
            == (if p.isVoid then []
                else [if body.outcome.Returned? && !sent then body.outcome.stack[0] else f1.slots[0]])
               + [if body.outcome.Returned? then Null else body.outcome.exc, f1.slots[StateSlot(p)]]
  {
    hide BlocksTyped, LogReturns, AfterBegin;
    NoExceptionBeforeBody(p, oracle, Start(p, env));
  }

  /** The instance is loaded for EndMethod, or fails to load, in this frame. */
  function Loading(p: Plan, oracle: Oracle, env: Env, body: State, sent: bool): Ran
    requires LogReturns(p, oracle) && BlocksTyped(p, oracle) && body.Done?
  {
    RunOps(p.localCount, oracle, ReceiverOps(p.receiver), 0, BeforeEnd(p, oracle, env, body, sent))
  }

  /** The value a rewritten method returns, if its body returned. */
  function FinalResult(p: Plan, oracle: Oracle, env: Env, body: State, sent: bool): Val
    requires LogReturns(p, oracle) && BlocksTyped(p, oracle) && body.Done? && !p.isVoid
  {
    var f2, pre := BeforeEnd(p, oracle, env, body, sent), Loading(p, oracle, env, body, sent);
    if pre.Through? then ResultOf(p, oracle, pre.f.env, pre.f.stack + EndArgs(p, f2.slots), f2.slots[0])
    else f2.slots[0]
  }

  /**
   How a rewritten method ends: EndMethod has been called exactly once more than by the body, or not at all if
   loading the instance for it failed; an exception of the body goes on; otherwise GetReturnValue's answer is
   returned, or what the result local held if EndMethod threw or was not called.
   */
  ghost predicate Contract(p: Plan, oracle: Oracle, env: Env, body: State, sent: bool, r: State)
    requires LogReturns(p, oracle) && BlocksTyped(p, oracle) && body.Done?
  {
    var pre := Loading(p, oracle, env, body, sent);
    && r.Done? && !pre.Wedged?
    && Count(r.history, EndKey(p)) == Count(body.history, EndKey(p)) + (if pre.Through? then 1 else 0)
    && (body.outcome.Thrown? ==> r.outcome.Thrown? && r.outcome.exc == body.outcome.exc)
    && (body.outcome.Returned? && p.isVoid ==> r.outcome.Returned? && r.outcome.stack == [])
    && (body.outcome.Returned? && !p.isVoid ==>
         r.outcome.Returned? && r.outcome.stack == [FinalResult(p, oracle, env, body, sent)])
  }

  /** A wrapped body meets the contract. */
  lemma WrappedMeetsContract(p: Plan, oracle: Oracle, env: Env, body: State, sent: bool)
    requires LogReturns(p, oracle) && BlocksTyped(p, oracle) && body.Done?
    requires p.localCount + 4 <= 0x1_0000 && TokensDistinct(p.tokens)
    ensures Contract(p, oracle, env, body, sent, Wrapped(p, oracle, env, body, sent))
  {
    hide AfterBegin, AfterEnd, BlocksTyped, LogReturns, RunOps, ReceiverOps, Count, EndArgs, ResultOf;
    var f1, f2 := AfterBegin(p, oracle, Start(p, env)), BeforeEnd(p, oracle, env, body, sent);
    EndMethodOnce(p, oracle, f2);
    BeginMethodOnce(p, oracle, Start(p, env));
    assert Count([], EndKey(p)) == 0 by { CountNone(EndKey(p)); }
    CountAppend(f1.trace, body.history, EndKey(p));
  }

  /** The contract of a rewritten method whose body ends. */
  lemma CallbackContract(p: Plan, o: Program, w: Program, oracle: Oracle, env: Env, n: nat) returns (m: nat)
    requires Setting(p, o, w, oracle) && TokensDistinct(p.tokens) && BodyRun(p, o, oracle, env, n).Done?
    requires RunPasses(p, o, oracle, env, BodyRun(p, o, oracle, env, n), BodySent(p, o, oracle, env, n))
    ensures Contract(p, oracle, env, BodyRun(p, o, oracle, env, n), BodySent(p, o, oracle, env, n),
                     Steps(w, oracle, StateOf(Start(p, env), 0, []), m))
  {
    hide Rewriting, Steps, BodyOk, BlocksTyped, CatchesExceptions, LogReturns, Contract, Wrapped, BodyRun, BodySent,
      RunPasses;
    BothWellFormed(p, o, w);
    m := CallTargetPreservesMeaning(p, o, w, oracle, env, n);
    SmallLocals(p, o, w);
    WrappedMeetsContract(p, oracle, env, BodyRun(p, o, oracle, env, n), BodySent(p, o, oracle, env, n));
  }

  lemma SmallLocals(p: Plan, o: Program, w: Program)
    requires Rewriting(p, o, w)
    ensures p.localCount + 4 <= 0x1_0000
  {
  }

  lemma CountNone(key: Key)
    ensures Count([], key) == 0
  {
  }

  /** EndMethod, called for this body, throws. */
  predicate EndThrows(p: Plan, oracle: Oracle, env: Env, body: State, sent: bool)
    requires LogReturns(p, oracle) && BlocksTyped(p, oracle) && body.Done?
  {
    var pre := Loading(p, oracle, env, body, sent);
    pre.Through? ==>
      oracle.exec(EndKey(p), pre.f.env, pre.f.stack + EndArgs(p, BeforeEnd(p, oracle, env, body, sent).slots)).Raise?
  }

  /**
   When EndMethod throws, or its instance cannot be loaded, the method returns the body's value if and only if the
   body fell through to its return or the result local held that value already; if control was sent to the return,
   by any branch or switch, the method returns what the result local held before.
   */
  lemma BranchedReturnIsLost(p: Plan, o: Program, w: Program, oracle: Oracle, env: Env, n: nat) returns (m: nat)
    requires Setting(p, o, w, oracle) && TokensDistinct(p.tokens) && !p.isVoid
    requires BodyRun(p, o, oracle, env, n).Done? && BodyRun(p, o, oracle, env, n).outcome.Returned?
    requires RunPasses(p, o, oracle, env, BodyRun(p, o, oracle, env, n), BodySent(p, o, oracle, env, n))
    requires EndThrows(p, oracle, env, BodyRun(p, o, oracle, env, n), BodySent(p, o, oracle, env, n))
    ensures var r := Steps(w, oracle, StateOf(Start(p, env), 0, []), m);
            r.Done? && r.outcome.Returned? && |r.outcome.stack| == 1
    ensures |AfterBegin(p, oracle, Start(p, env)).slots| == SlotCount(p)
    ensures |BodyRun(p, o, oracle, env, n).outcome.stack| == 1
    ensures var r := Steps(w, oracle, StateOf(Start(p, env), 0, []), m).outcome.stack[0];
            var v := BodyRun(p, o, oracle, env, n).outcome.stack[0];
            var before := AfterBegin(p, oracle, Start(p, env)).slots[0];
            && (r == v <==> !BodySent(p, o, oracle, env, n) || before == v)
            && (BodySent(p, o, oracle, env, n) ==> r == before)
  {
    hide Rewriting, Steps, BodyOk, BlocksTyped, CatchesExceptions, LogReturns, BodyRun, BodySent, RunPasses, AfterBegin,
      RunOps, EndArgs, BeforeEnd, ReceiverOps, Count;
    BothWellFormed(p, o, w);
    var body, sent := BodyRun(p, o, oracle, env, n), BodySent(p, o, oracle, env, n);
    ResultOnStack(p, o, w, oracle, env, n);
    m := CallbackContract(p, o, w, oracle, env, n);
    OwnResult(p, oracle, env, body, sent);
  }

  lemma ResultOnStack(p: Plan, o: Program, w: Program, oracle: Oracle, env: Env, n: nat)
    requires Setting(p, o, w, oracle) && !p.isVoid
    requires BodyRun(p, o, oracle, env, n).Done? && BodyRun(p, o, oracle, env, n).outcome.Returned?
    ensures |BodyRun(p, o, oracle, env, n).outcome.stack| == 1
  {
    hide Rewriting, BodyOk, BlocksTyped, CatchesExceptions, LogReturns, BodyRun, BodySent, AfterBegin, Steps;
    var m, f, pending := ResultKeptIff(p, o, w, oracle, env, n);
  }
}
