/**
 The stack depth the callback declares covers the injected instructions, whose stack effects are those of the opcode
 table.
 */
module CallTargetDepth {
  import opened Bytes
  import opened OpCodes
  import opened OpcodeTable
  import opened ILCode
  import opened ILEditing
  import opened ILFormat
  import opened ExceptionTable
  import opened ILRewriterModel
  import opened ILMachine
  import opened CallTargetCode
  import opened StraightLine
  import opened CallTargetMeaning
  import opened CallTargetContract
  import opened CallTargetCallback

  // ---- stack effects

  /** An injected instruction pops and pushes what its row says; what a call pops is not in the table. */
  predicate Tabled(op: Op) {
    && op.i.opcode < COUNT
    && op.pushes == MostPushed(op.i.opcode)
    && (RowOf(op.i.opcode).pops.Exactly? ==> op.pops == RowOf(op.i.opcode).pops.n)
  }

  predicate AllTabled(ops: seq<Op>) {
    forall k :: 0 <= k < |ops| ==> Tabled(ops[k])
  }

  lemma LocalTabled(index: nat)
    ensures Tabled(Op(StoreLocal(index), 1, 0)) && Tabled(Op(LoadLocal(index), 0, 1))
    ensures Tabled(Op(LoadLocalAddress(index), 0, 1))
  {
  }

  lemma LoadsTabled(index: nat, value: int)
    ensures Tabled(Op(LoadArgument(index), 0, 1)) && Tabled(Op(LoadInt32(value), 0, 1))
  {
  }

  lemma BareTabled(token: nat, pops: nat)
    ensures Tabled(Op(Bare(LDNULL), 0, 1)) && Tabled(Op(Bare(DUP), 1, 2)) && Tabled(Op(Bare(STELEM_REF), 3, 0))
    ensures Tabled(Op(WithToken(CALL, token), pops, 1))
  {
  }

  lemma TypesTabled(token: nat)
    ensures Tabled(Op(WithToken(LDOBJ, token), 1, 1)) && Tabled(Op(WithToken(BOX, token), 1, 1))
    ensures Tabled(Op(WithToken(NEWARR, token), 1, 1))
  {
  }

  lemma InitTabled(p: Plan)
    ensures AllTabled(InitOps(p))
  {
    hide Tabled, StoreLocal;
    LocalTabled(ReturnLocal(p));
    LocalTabled(ReturnStateLocal(p));
    LocalTabled(ExceptionLocal(p));
    BareTabled(p.tokens.voidDefault, 0);
    BareTabled(p.tokens.defaultValue, 0);
    BareTabled(p.tokens.returnDefault, 0);
  }

  lemma ReceiverTabled(r: Receiver)
    ensures AllTabled(ReceiverOps(r))
  {
    hide Tabled, LoadArgument;
    BareTabled(0, 0);
    LoadsTabled(0, 0);
    if r.Struct? {
      TypesTabled(r.token);
    }
  }

  lemma {:induction false} FastArgsTabled(p: Plan, k: nat)
    requires k <= |p.args|
    ensures AllTabled(FastArgOps(p, k))
  {
    hide Tabled, LoadArgument;
    if k > 0 {
      FastArgsTabled(p, k - 1);
      LoadsTabled(ArgIndex(p.receiver, k - 1), 0);
    }
  }

  lemma {:induction false} ArraysTabled(p: Plan, k: nat)
    requires k <= |p.args|
    ensures AllTabled(ArrayOps(p, k))
  {
    hide Tabled, LoadArgument, LoadInt32;
    LoadsTabled(0, |p.args|);
    TypesTabled(p.tokens.objectType);
    if k > 0 {
      ArraysTabled(p, k - 1);
      BareTabled(0, 0);
      LoadsTabled(ArgIndex(p.receiver, k - 1), k - 1);
      if p.args[k - 1].Boxed? {
        TypesTabled(p.args[k - 1].token);
      }
    }
  }

  lemma BeginTabled(p: Plan)
    ensures AllTabled(BeginBlock(p))
  {
    hide Tabled, InitOps, ReceiverOps, FastArgOps, ArrayOps, StoreLocal;
    InitTabled(p);
    ReceiverTabled(p.receiver);
    FastArgsTabled(p, |p.args|);
    ArraysTabled(p, |p.args|);
    LocalTabled(StateLocal(p));
    BareTabled(p.tokens.begin, 1 + if |p.args| < FASTPATH_COUNT then |p.args| else 1);
  }

  lemma EndTabled(p: Plan)
    ensures AllTabled(EndBlock(p))
  {
    hide Tabled, ReceiverOps, StoreLocal, LoadLocal, LoadLocalAddress;
    ReceiverTabled(p.receiver);
    LocalTabled(ReturnLocal(p));
    LocalTabled(ExceptionLocal(p));
    LocalTabled(StateLocal(p));
    LocalTabled(ReturnStateLocal(p));
    BareTabled(p.tokens.end, if p.isVoid then 3 else 4);
    BareTabled(p.tokens.getReturnValue, 1);
  }

  // ---- depth within the sum of pushes

  lemma {:induction false} PushSumGrows(code: Code, m: nat, n: nat)
    requires OpcodesOk(code) && m <= n <= |code|
    ensures PushSum(code[..m]) <= PushSum(code[..n])
    decreases n
  {
    hide Pushes;
    if m < n {
      assert code[..n][..n - 1] == code[..n - 1];
      PushSumGrows(code, m, n - 1);
    }
  }

  /** The block's instructions sit at position `at`. */
  predicate SitsAt(code: Code, at: nat, ops: seq<Op>) {
    at + |ops| <= |code| && forall i :: 0 <= i < |ops| ==> code[at + i] == ops[i].i
  }

  /** What a block has on the stack after k instructions, its own pushes pay for. */
  lemma {:induction false} DepthPaidFor(code: Code, at: nat, ops: seq<Op>, k: nat)
    requires OpcodesOk(code) && SitsAt(code, at, ops) && AllTabled(ops) && k <= |ops|
    ensures PushSum(code[..at]) + Depth(ops, k) <= PushSum(code[..at + k])
  {
    hide Pushes, RowOf, MostPushed;
    if k > 0 {
      var n := at + k;
      DepthPaidFor(code, at, ops, k - 1);
      assert Tabled(ops[k - 1]) && code[n - 1] == ops[k - 1].i;
      PushesAreMost(code[n - 1].opcode);
      assert code[..n][..n - 1] == code[..n - 1];
    }
  }

  lemma DepthCovered(code: Code, at: nat, ops: seq<Op>, k: nat)
    requires OpcodesOk(code) && SitsAt(code, at, ops) && AllTabled(ops) && k <= |ops|
    ensures Depth(ops, k) <= PushSum(code)
  {
    hide PushSum, AllTabled;
    DepthPaidFor(code, at, ops, k);
    PushSumGrows(code, at + k, |code|);
    assert code[..|code|] == code;
  }

  lemma BeginSits(p: Plan, code: Code, w: Code)
    requires CodeRewritten(p, code, w)
    ensures SitsAt(w, 0, BeginBlock(p))
  {
    hide BeginBlock, NodePos, Epilogue, CatchPos, TotalSize;
    forall i | 0 <= i < |BeginBlock(p)| ensures w[i] == BeginBlock(p)[i].i {
      assert w[..BodyStart(p)][i] == w[i];
    }
  }

  lemma EndSits(p: Plan, code: Code, w: Code)
    requires CodeRewritten(p, code, w)
    ensures SitsAt(w, EndTryPos(p, code), EndBlock(p))
  {
    hide BeginBlock, EndBlock, NodePos, Prologue, CatchPos, TotalSize, BodyStart, StoreLocal, LoadLocal;
    var c := CatchPos(p, code);
    forall i | 0 <= i < |EndBlock(p)| ensures w[EndTryPos(p, code) + i] == EndBlock(p)[i].i {
      assert w[c..][2 + i] == w[c + 2 + i];
    }
    assert |w[c..]| == |Epilogue(p, code)|;
  }

  // ---- the declared depth

  /** After k instructions of a block that has not thrown, as many values are on the stack as its depth says. */
  lemma StackIsDepth(base: nat, o: Oracle, ops: seq<Op>, k: nat, f: Frame)
    requires BlockOk(base, |f.slots|, o, ops) && k <= |ops| && f.stack == []
    ensures var r := RunOps(base, o, ops[..k], 0, f); r.Through? ==> |r.f.stack| == Depth(ops, k)
  {
    hide RunOps, OpOk;
    assert ops == ops[..k] + ops[k..];
    forall j: nat | j <= k ensures Depth(ops[..k], j) == Depth(ops, j) {
      DepthPrefix(ops[..k], ops[k..], j);
    }
    BlockRuns(base, o, ops[..k], 0, f);
  }

  /**
   The depth the callback declares covers what the injected instructions have on the stack at any point of the begin
   and end regions, on top of all the old header asked for.
   */
  lemma DeclaredDepthCovers(p: Plan, bytes: seq<byte>, fats: seq<FatClause>, headerStack: nat, body: MethodBody,
                            code: Code, anchors: seq<Clause<int>>, w: Code, o: Oracle, f: Frame, k: nat)
    requires IsRewriting(p, bytes, fats, headerStack, body, code, anchors, w)
    requires BlocksTyped(p, o) && |f.slots| == SlotCount(p) && f.stack == []
    ensures k <= |BeginBlock(p)| ==>
              var r := RunOps(p.localCount, o, BeginBlock(p)[..k], 0, f);
              r.Through? ==> headerStack + |r.f.stack| <= body.maxStack
    ensures k <= |EndBlock(p)| ==>
              var r := RunOps(p.localCount, o, EndBlock(p)[..k], 0, f);
              r.Through? ==> headerStack + |r.f.stack| <= body.maxStack
  {
    hide BeginBlock, EndBlock, RunOps, AllTabled, SitsAt, BlockOk, CodeRewritten, PushSum, Imports, ImportsClause,
      ClausesExported, Encode, NewClauses, EndTryPos;
    BeginTabled(p);
    EndTabled(p);
    BeginSits(p, code, w);
    EndSits(p, code, w);
    if k <= |BeginBlock(p)| {
      StackIsDepth(p.localCount, o, BeginBlock(p), k, f);
      DepthCovered(w, 0, BeginBlock(p), k);
    }
    if k <= |EndBlock(p)| {
      StackIsDepth(p.localCount, o, EndBlock(p), k, f);
      DepthCovered(w, EndTryPos(p, code), EndBlock(p), k);
    }
  }
}
