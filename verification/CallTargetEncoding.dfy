/** Injected code contains no returns of its own, its operands fit, and a rewriting can be exported. */
module CallTargetEncoding {
  import opened Bytes
  import opened OpCodes
  import opened ILCode
  import opened CallTargetCode
  import opened CallTargetEmission

  predicate NoReturns(code: Code) {
    forall i :: 0 <= i < |code| ==> code[i].opcode != RET
  }

  predicate Encodable(i: Instr) {
    i.opcode < TABLE_SIZE && !IsBranch(i.opcode) && i.operand.Bits? && i.operand.w < Pow256(OperandSize(i.opcode))
  }

  predicate Injectable(i: Instr) {
    i.opcode != RET && Encodable(i)
  }

  predicate AllInjectable(code: Code) {
    forall i :: 0 <= i < |code| ==> Injectable(code[i])
  }

  lemma PowersOf256()
    ensures Pow256(0) == 1 && Pow256(1) == 0x100 && Pow256(2) == 0x1_0000 && Pow256(4) == 0x1_0000_0000
  {
    assert Pow256(3) == 0x100_0000;
  }

  lemma LocalsInjectable(index: nat)
    ensures Injectable(StoreLocal(index)) && Injectable(LoadLocal(index)) && Injectable(LoadLocalAddress(index))
  {
    PowersOf256();
  }

  lemma LoadsInjectable(index: nat, value: int)
    ensures Injectable(LoadArgument(index)) && Injectable(LoadInt32(value))
  {
    PowersOf256();
  }

  lemma TokensInjectable(token: Token)
    ensures Injectable(WithToken(CALL, token)) && Injectable(WithToken(LDOBJ, token))
    ensures Injectable(WithToken(BOX, token)) && Injectable(WithToken(NEWARR, token))
  {
    PowersOf256();
  }

  lemma BareInjectable()
    ensures Injectable(Bare(LDNULL)) && Injectable(Bare(DUP)) && Injectable(Bare(STELEM_REF))
    ensures Injectable(Bare(RETHROW)) && Injectable(Bare(ENDFINALLY)) && Encodable(Bare(RET))
  {
    PowersOf256();
    hide Pow256;
  }

  lemma {:induction false} ArraysInjectable(p: Plan, k: nat)
    requires k <= |p.args|
    ensures AllInjectable(CodeOf(ArrayOps(p, k)))
  {
    hide LoadInt32, LoadArgument, Injectable;
    LoadsInjectable(0, |p.args|);
    TokensInjectable(p.tokens.objectType);
    if k > 0 {
      ArraysInjectable(p, k - 1);
      CodeOfAppend(ArrayOps(p, k - 1), ArrayItemOps(p, k - 1));
      BareInjectable();
      LoadsInjectable(ArgIndex(p.receiver, k - 1), k - 1);
      if p.args[k - 1].Boxed? {
        TokensInjectable(p.args[k - 1].token);
      }
    }
  }

  lemma {:induction false} FastInjectable(p: Plan, k: nat)
    requires k <= |p.args|
    ensures AllInjectable(CodeOf(FastArgOps(p, k)))
  {
    hide LoadArgument, Injectable;
    if k > 0 {
      FastInjectable(p, k - 1);
      CodeOfAppend(FastArgOps(p, k - 1), [Op(LoadArgument(ArgIndex(p.receiver, k - 1)), 0, 1)]);
      LoadsInjectable(ArgIndex(p.receiver, k - 1), 0);
    }
  }

  lemma ReceiverInjectable(r: Receiver)
    ensures AllInjectable(CodeOf(ReceiverOps(r)))
  {
    hide Injectable, LoadArgument;
    BareInjectable();
    LoadsInjectable(0, 0);
    if r.Struct? {
      TokensInjectable(r.token);
    }
  }

  lemma InitInjectable(p: Plan)
    ensures AllInjectable(CodeOf(InitOps(p))) && AllInjectable(CodeOf(BeginOps(p)))
  {
    hide StoreLocal, Injectable;
    LocalsInjectable(ReturnLocal(p));
    LocalsInjectable(ExceptionLocal(p));
    LocalsInjectable(ReturnStateLocal(p));
    LocalsInjectable(StateLocal(p));
    TokensInjectable(p.tokens.voidDefault);
    TokensInjectable(p.tokens.defaultValue);
    TokensInjectable(p.tokens.returnDefault);
    TokensInjectable(p.tokens.begin);
    BareInjectable();
  }

  lemma BeginInjectable(p: Plan)
    ensures AllInjectable(CodeOf(BeginBlock(p))) && NoReturns(BeginPart(p))
  {
    hide InitOps, ReceiverOps, FastArgOps, ArrayOps, BeginOps, CodeOf, Encodable;
    InitInjectable(p);
    ReceiverInjectable(p.receiver);
    FastInjectable(p, |p.args|);
    ArraysInjectable(p, |p.args|);
    CodeOfAppend(ReceiverOps(p.receiver), ArgOps(p));
    CodeOfAppend(InitOps(p), ReceiverOps(p.receiver) + ArgOps(p));
    BeginBlockCode(p);
  }

  lemma EndLoadsInjectable(p: Plan)
    ensures AllInjectable(CodeOf(EndLoads(p) + EndRest(p)))
  {
    hide LoadLocal, StoreLocal, LoadLocalAddress, Injectable;
    LocalsInjectable(ReturnLocal(p));
    LocalsInjectable(ExceptionLocal(p));
    LocalsInjectable(ReturnStateLocal(p));
    LocalsInjectable(StateLocal(p));
    TokensInjectable(p.tokens.end);
    TokensInjectable(p.tokens.getReturnValue);
  }

  lemma EndInjectable(p: Plan)
    ensures AllInjectable(CodeOf(EndBlock(p))) && NoReturns(EndPart(p))
  {
    hide ReceiverOps, LoadLocal, StoreLocal, EndLoads, EndRest, Encodable, CodeOf;
    ReceiverInjectable(p.receiver);
    EndLoadsInjectable(p);
    EndBlockCalls(p);
    LocalsInjectable(ExceptionLocal(p));
    LocalsInjectable(ReturnLocal(p));
    hide EndBlock;
  }

  // ---- the parts against the prologue and epilogue of the rewriting

  lemma BeginPartAt(p: Plan)
    ensures var n := |BeginBlock(p)|;
            |BeginPart(p)| == n + 3 && BeginPart(p)[n] == BeginPart(p)[n + 2] == Bare(LEAVE_S)
  {
    hide BeginBlock;
  }

  lemma BeginPartSize(p: Plan)
    ensures |BeginPart(p)| == BodyStart(p)
  {
    hide BeginBlock;
  }

  /** The epilogue with its final return. */
  function EndPartReturning(p: Plan): Code {
    EndPart(p) + [Bare(RET)]
  }

  lemma EndPartAt(p: Plan)
    ensures var n := |EndBlock(p)|;
            && |EndPart(p)| == n + 6 + (if p.isVoid then 0 else 1)
            && EndPart(p)[n + 2] == EndPart(p)[n + 4] == Bare(LEAVE_S)
  {
    hide EndBlock, StoreLocal, LoadLocal;
  }

  lemma PrologueShape(p: Plan, code: Code, i: nat)
    requires |code| > 0 && i < |BeginPart(p)|
    ensures |Prologue(p, code)| == |BeginPart(p)|
    ensures var n := |BeginBlock(p)|;
            Prologue(p, code)[i] == if i == n || i == n + 2 then Instr(LEAVE_S, Target(NodePos(p, code, 0)))
                                    else BeginPart(p)[i]
  {
    hide BeginBlock, NodePos;
  }

  lemma EndShape(p: Plan, code: Code, i: nat)
    requires i < |EndPartReturning(p)|
    ensures |Epilogue(p, code)| == |EndPartReturning(p)|
    ensures var n := |EndBlock(p)|;
            Epilogue(p, code)[i] == if i == n + 2 || i == n + 4 then Instr(LEAVE_S, Target(EndFinallyPos(p, code)))
                                    else EndPartReturning(p)[i]
  {
    hide EndBlock, EndFinallyPos, LoadLocal, StoreLocal;
  }

  // ---- it can be exported

  lemma PrologueEncodes(p: Plan, code: Code, w: Code, q: nat)
    requires CodeRewritten(p, code, w) && q < BodyStart(p) && q < |w|
    ensures Encodable(w[q]) || (w[q].opcode == LEAVE_S && w[q].operand == Target(NodePos(p, code, 0)))
  {
    hide BeginBlock, NodePos, Epilogue, Encodable, EndBlock, TotalSize, CatchPos;
    BeginInjectable(p);
    TokensInjectable(p.tokens.logException);
    BeginPartSize(p);
    PrologueShape(p, code, q);
    hide Prologue;
    assert w[..BodyStart(p)][q] == w[q];
    assert w[q] == Prologue(p, code)[q];
  }

  lemma EpilogueEncodes(p: Plan, code: Code, w: Code, q: nat)
    requires CodeRewritten(p, code, w) && CatchPos(p, code) <= q < |w|
    ensures Encodable(w[q]) || (w[q].opcode == LEAVE_S && w[q].operand == Target(EndFinallyPos(p, code)))
  {
    hide BeginBlock, NodePos, Prologue, Encodable, EndBlock, TotalSize, CatchPos, StoreLocal, LoadLocal, EndFinallyPos;
    EndInjectable(p);
    TokensInjectable(p.tokens.logException);
    BareInjectable();
    LocalsInjectable(ExceptionLocal(p));
    LocalsInjectable(ReturnLocal(p));
    var c := CatchPos(p, code);
    EpilogueLong(p, code);
    assert w[c..][q - c] == w[q];
    EndShape(p, code, q - c);
    hide Epilogue;
    assert w[q] == Epilogue(p, code)[q - c];
  }

  lemma EpilogueLong(p: Plan, code: Code)
    ensures |Epilogue(p, code)| == |EndPartReturning(p)|
  {
    hide EndBlock, StoreLocal, LoadLocal;
  }

  /** Every position of a rewriting belongs to the prologue, to a node of the body or its store, or to the epilogue. */
  lemma {:induction false} PartOf(p: Plan, code: Code, q: nat, i: nat) returns (k: nat)
    requires i < |code| && EntryPos(p, code, i) <= q < CatchPos(p, code)
    ensures i <= k < |code| && (q == NodePos(p, code, k) || (q + 1 == NodePos(p, code, k) && !p.isVoid
              && code[k].opcode == RET))
    decreases |code| - i
  {
    hide BodyStart;
    k := i;
    PositionsOrdered(p, code, i, |code|);
    if q > NodePos(p, code, i) {
      k := PartOf(p, code, q, i + 1);
    }
  }

  lemma RewrittenOperand(p: Plan, code: Code, w: Code, q: nat)
    requires Exportable(code) && CodeRewritten(p, code, w) && OpcodesOk(w) && q < |w|
    ensures OperandOk(w, q)
  {
    hide BeginBlock, NodePos, Epilogue, Prologue, EndBlock, StoreLocal, LoadLocal, FlagsOf, EntryPos;
    SizesFit(p, code);
    if q < BodyStart(p) {
      PrologueEncodes(p, code, w, q);
      LeaveIsBranch();
    } else if q >= CatchPos(p, code) {
      EpilogueEncodes(p, code, w, q);
      LeaveIsBranch();
    } else {
      StartsAtBody(p, code);
      var k := PartOf(p, code, q, 0);
      assert NodeRewritten(p, code, w, k) && OperandOk(code, k);
      if q == NodePos(p, code, k) {
        LeaveIsBranch();
        if code[k].operand.Target? {
          NewPosFits(p, code, code[k].operand.to);
        }
      } else {
        LocalsInjectable(ReturnLocal(p));
      }
    }
  }

  lemma StartsAtBody(p: Plan, code: Code)
    ensures EntryPos(p, code, 0) == BodyStart(p)
  {
  }

  lemma LeaveIsBranch()
    ensures IsBranch(LEAVE_S)
  {
  }

  lemma NewPosFits(p: Plan, code: Code, t: nat)
    requires t <= |code|
    ensures NewPos(p, code, t) <= TotalSize(p, code)
  {
    hide BeginBlock, EndBlock;
    if t < |code| {
      PositionsOrdered(p, code, t, |code|);
    }
  }

  lemma SizesFit(p: Plan, code: Code)
    requires |code| > 0
    ensures NodePos(p, code, 0) <= TotalSize(p, code) && EndFinallyPos(p, code) <= TotalSize(p, code)
    ensures ReturnPos(p, code) <= TotalSize(p, code)
  {
    NewPosFits(p, code, 0);
    hide NodePos, EndBlock, CatchPos;
  }

  lemma RewrittenOpcode(p: Plan, code: Code, w: Code, q: nat)
    requires Exportable(code) && CodeRewritten(p, code, w) && q < |w|
    ensures w[q].opcode < TABLE_SIZE
  {
    hide BeginBlock, NodePos, Epilogue, Prologue, EndBlock, StoreLocal, LoadLocal, FlagsOf, EntryPos, OperandOk;
    if q < BodyStart(p) {
      PrologueEncodes(p, code, w, q);
    } else if q >= CatchPos(p, code) {
      EpilogueEncodes(p, code, w, q);
    } else {
      StartsAtBody(p, code);
      var k := PartOf(p, code, q, 0);
      assert NodeRewritten(p, code, w, k);
      LocalsInjectable(ReturnLocal(p));
    }
  }

  /** A rewriting of an exportable list is exportable. */
  lemma RewrittenExportable(p: Plan, code: Code, w: Code)
    requires Exportable(code) && CodeRewritten(p, code, w)
    ensures Exportable(w)
  {
    hide CodeRewritten, OperandOk, Exportable;
    forall q | 0 <= q < |w| ensures w[q].opcode < TABLE_SIZE {
      RewrittenOpcode(p, code, w, q);
    }
    AllOperands(p, code, w);
  }

  lemma AllOperands(p: Plan, code: Code, w: Code)
    requires Exportable(code) && CodeRewritten(p, code, w) && OpcodesOk(w)
    ensures Exportable(w)
  {
    hide CodeRewritten, OperandOk;
    forall q | 0 <= q < |w| ensures OperandOk(w, q) {
      RewrittenOperand(p, code, w, q);
    }
  }
}
