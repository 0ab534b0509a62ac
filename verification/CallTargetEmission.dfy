/** Emitting the injected instructions, block by block, through the helpers. */
module CallTargetEmission {
  import opened OpCodes
  import opened ILCode
  import opened ILRewriterModel
  import opened ILRewriterWrapperModel
  import opened CallTargetCode

  /** What the callback looks at in an argument; a boxed one's type token is nil if it cannot be resolved. */
  datatype Argument = ByRef | Plain | Value(token: Token)

  const TOKEN_NIL: Token := 0
  const TYPE_SPEC_NIL: Token := 0x1b00_0000

  /** What the callback looks at in the method to be rewritten. */
  datatype Caller = Caller(
    isStatic: bool, valueType: bool, typeSpec: Token, isGeneric: bool, typeId: Token,
    args: seq<Argument>, isVoid: bool)

  /** Whether the instance can be loaded: not in static methods of structs, nor in generic structs without a spec. */
  predicate ReceiverLoads(c: Caller) {
    !c.valueType || (!c.isStatic && (c.typeSpec != TYPE_SPEC_NIL || !c.isGeneric))
  }

  predicate ArgumentLoads(c: Caller, i: nat)
    requires i < |c.args|
  {
    && !c.args[i].ByRef?
    && (|c.args| >= FASTPATH_COUNT && c.args[i].Value? ==> c.args[i].token != TOKEN_NIL)
  }

  /** The methods the callback rewrites. */
  predicate Instrumentable(c: Caller) {
    ReceiverLoads(c) && forall i :: 0 <= i < |c.args| ==> ArgumentLoads(c, i)
  }

  /** Which methods are left alone, case by case. */
  lemma RefusedIff(c: Caller)
    ensures !Instrumentable(c)
            <==> || (c.valueType && c.isStatic)
                 || (c.valueType && c.isGeneric && c.typeSpec == 0x1b00_0000)
                 || (exists i :: 0 <= i < |c.args| && c.args[i] == ByRef)
                 || (|c.args| >= 9 && exists i :: 0 <= i < |c.args| && c.args[i] == Value(0))
  {
    if i :| 0 <= i < |c.args| && (c.args[i] == ByRef || (|c.args| >= 9 && c.args[i] == Value(0))) {
      assert !ArgumentLoads(c, i);
    }
    if !Instrumentable(c) && ReceiverLoads(c) {
      var i :| 0 <= i < |c.args| && !ArgumentLoads(c, i);
      assert c.args[i] == ByRef || (|c.args| >= 9 && c.args[i] == Value(0));
    }
  }

  function ReceiverOf(c: Caller): Receiver {
    if c.isStatic then NoReceiver
    else if !c.valueType then Reference
    else if c.typeSpec != TYPE_SPEC_NIL then Struct(c.typeSpec)
    else Struct(c.typeId)
  }

  function BoxingOf(a: Argument): Boxing {
    if a.Value? then Boxed(a.token) else Unboxed
  }

  function PlanOf(c: Caller, localCount: nat, tokens: Tokens): (p: Plan)
    ensures |p.args| == |c.args| && p.isVoid == c.isVoid && p.localCount == localCount && p.tokens == tokens
  {
    Plan(ReceiverOf(c), seq(|c.args|, i requires 0 <= i < |c.args| => BoxingOf(c.args[i])), c.isVoid, localCount,
              tokens)
  }

  lemma CodeOfAppend(a: seq<Op>, b: seq<Op>)
    ensures CodeOf(a + b) == CodeOf(a) + CodeOf(b)
  {
  }

  // ---- emitting the blocks

  method InitializeLocals(w: ILRewriterWrapper, p: Plan) returns (first: ILInstr)
    requires w.Valid()
    modifies w`Emitted, w`Instrs
    modifies w.rewriter`Nodes, w.rewriter`Body, w.rewriter`Anchors, w.rewriter`maxStack, w.rewriter`instrCount
    modifies w.rewriter.sentinel`next, w.rewriter.sentinel`prev, w.rewriter.Nodes`next, w.rewriter.Nodes`prev
    ensures w.Valid() && old(w.Emitted) < w.Emitted
    ensures forall i :: |old(w.Emitted)| <= i < |w.Emitted| ==> fresh(w.Emitted[i])
    ensures forall j :: 0 <= j < |w.rewriter.Nodes| ==>
              w.rewriter.Nodes[j] in old(w.rewriter.Nodes) || fresh(w.rewriter.Nodes[j])
    ensures first == w.Emitted[|old(w.Emitted)|]
    ensures w.Instrs == old(w.Instrs) + CodeOf(InitOps(p))
  {
    hide ILRewriterWrapper.Valid, StoreLocal;
    if !p.isVoid {
      first := w.CallMember(p.tokens.defaultValue, false);
      var _ := w.StLocal(ReturnLocal(p));
      var _ := w.CallMember(p.tokens.returnDefault, false);
    } else {
      first := w.CallMember(p.tokens.voidDefault, false);
    }
    var _ := w.StLocal(ReturnStateLocal(p));
    var _ := w.LoadNull();
    var _ := w.StLocal(ExceptionLocal(p));
  }

  /** Loads the instance, or null for a static method. */
  method LoadInstance(w: ILRewriterWrapper, c: Caller) returns (ok: bool, first: ILInstr)
    requires w.Valid()
    modifies w`Emitted, w`Instrs
    modifies w.rewriter`Nodes, w.rewriter`Body, w.rewriter`Anchors, w.rewriter`maxStack, w.rewriter`instrCount
    modifies w.rewriter.sentinel`next, w.rewriter.sentinel`prev, w.rewriter.Nodes`next, w.rewriter.Nodes`prev
    ensures w.Valid() && old(w.Emitted) <= w.Emitted
    ensures forall i :: |old(w.Emitted)| <= i < |w.Emitted| ==> fresh(w.Emitted[i])
    ensures forall j :: 0 <= j < |w.rewriter.Nodes| ==>
              w.rewriter.Nodes[j] in old(w.rewriter.Nodes) || fresh(w.rewriter.Nodes[j])
    ensures ok == ReceiverLoads(c)
    ensures ok ==> |w.Emitted| > |old(w.Emitted)| && first == w.Emitted[|old(w.Emitted)|]
                   && w.Instrs == old(w.Instrs) + CodeOf(ReceiverOps(ReceiverOf(c)))
  {
    hide ILRewriterWrapper.Valid, LoadArgument;
    first := w.cursor;
    if c.isStatic {
      if c.valueType {
        return false, first;
      }
      first := w.LoadNull();
    } else {
      first := w.LoadArgument(0);
      if c.valueType {
        if c.typeSpec != TYPE_SPEC_NIL {
          var _ := w.LoadObj(c.typeSpec);
        } else if !c.isGeneric {
          var _ := w.LoadObj(c.typeId);
        } else {
          return false, first;
        }
      }
    }
    ok := true;
  }

  /** Loads the arguments, one after another or into an object array. */
  method LoadArguments(w: ILRewriterWrapper, c: Caller, p: Plan) returns (ok: bool)
    requires w.Valid() && p == PlanOf(c, p.localCount, p.tokens)
    modifies w`Emitted, w`Instrs
    modifies w.rewriter`Nodes, w.rewriter`Body, w.rewriter`Anchors, w.rewriter`maxStack, w.rewriter`instrCount
    modifies w.rewriter.sentinel`next, w.rewriter.sentinel`prev, w.rewriter.Nodes`next, w.rewriter.Nodes`prev
    ensures w.Valid() && old(w.Emitted) <= w.Emitted
    ensures forall i :: |old(w.Emitted)| <= i < |w.Emitted| ==> fresh(w.Emitted[i])
    ensures forall j :: 0 <= j < |w.rewriter.Nodes| ==>
              w.rewriter.Nodes[j] in old(w.rewriter.Nodes) || fresh(w.rewriter.Nodes[j])
    ensures ok == forall i :: 0 <= i < |c.args| ==> ArgumentLoads(c, i)
    ensures ok ==> w.Instrs == old(w.Instrs) + CodeOf(ArgOps(p))
  {
    if |c.args| < FASTPATH_COUNT {
      ok := LoadArgumentsDirectly(w, c, p);
    } else {
      ok := LoadArgumentsIntoArray(w, c, p);
    }
  }

  method LoadArgumentsDirectly(w: ILRewriterWrapper, c: Caller, p: Plan) returns (ok: bool)
    requires w.Valid() && p == PlanOf(c, p.localCount, p.tokens) && |c.args| < FASTPATH_COUNT
    modifies w`Emitted, w`Instrs
    modifies w.rewriter`Nodes, w.rewriter`Body, w.rewriter`Anchors, w.rewriter`maxStack, w.rewriter`instrCount
    modifies w.rewriter.sentinel`next, w.rewriter.sentinel`prev, w.rewriter.Nodes`next, w.rewriter.Nodes`prev
    ensures w.Valid() && old(w.Emitted) <= w.Emitted
    ensures forall i :: |old(w.Emitted)| <= i < |w.Emitted| ==> fresh(w.Emitted[i])
    ensures forall j :: 0 <= j < |w.rewriter.Nodes| ==>
              w.rewriter.Nodes[j] in old(w.rewriter.Nodes) || fresh(w.rewriter.Nodes[j])
    ensures ok == forall i :: 0 <= i < |c.args| ==> ArgumentLoads(c, i)
    ensures ok ==> w.Instrs == old(w.Instrs) + CodeOf(FastArgOps(p, |c.args|))
  {
    hide ILRewriterWrapper.Valid, LoadArgument;
    for i := 0 to |c.args|
        invariant w.Valid() && old(w.Emitted) <= w.Emitted
        invariant forall j :: |old(w.Emitted)| <= j < |w.Emitted| ==> fresh(w.Emitted[j])
        invariant forall j :: 0 <= j < |w.rewriter.Nodes| ==>
                  w.rewriter.Nodes[j] in old(w.rewriter.Nodes) || fresh(w.rewriter.Nodes[j])
        invariant forall j :: 0 <= j < i ==> ArgumentLoads(c, j)
        invariant w.Instrs == old(w.Instrs) + CodeOf(FastArgOps(p, i))
    {
      var _ := w.LoadArgument(i + (if c.isStatic then 0 else 1));
      CodeOfAppend(FastArgOps(p, i), [Op(LoadArgument(ArgIndex(p.receiver, i)), 0, 1)]);
      if c.args[i].ByRef? {
        assert !ArgumentLoads(c, i);
        return false;
      }
    }
    ok := true;
  }

  method LoadArgumentsIntoArray(w: ILRewriterWrapper, c: Caller, p: Plan) returns (ok: bool)
    requires w.Valid() && p == PlanOf(c, p.localCount, p.tokens) && |c.args| >= FASTPATH_COUNT
    modifies w`Emitted, w`Instrs
    modifies w.rewriter`Nodes, w.rewriter`Body, w.rewriter`Anchors, w.rewriter`maxStack, w.rewriter`instrCount
    modifies w.rewriter.sentinel`next, w.rewriter.sentinel`prev, w.rewriter.Nodes`next, w.rewriter.Nodes`prev
    ensures w.Valid() && old(w.Emitted) <= w.Emitted
    ensures forall i :: |old(w.Emitted)| <= i < |w.Emitted| ==> fresh(w.Emitted[i])
    ensures forall j :: 0 <= j < |w.rewriter.Nodes| ==>
              w.rewriter.Nodes[j] in old(w.rewriter.Nodes) || fresh(w.rewriter.Nodes[j])
    ensures ok == forall i :: 0 <= i < |c.args| ==> ArgumentLoads(c, i)
    ensures ok ==> w.Instrs == old(w.Instrs) + CodeOf(ArrayOps(p, |c.args|))
  {
    hide ILRewriterWrapper.Valid, LoadArgument, LoadInt32, ArrayItemOps;
    w.CreateArray(p.tokens.objectType, |c.args|);
    for i := 0 to |c.args|
        invariant w.Valid() && old(w.Emitted) <= w.Emitted
        invariant forall j :: |old(w.Emitted)| <= j < |w.Emitted| ==> fresh(w.Emitted[j])
        invariant forall j :: 0 <= j < |w.rewriter.Nodes| ==>
                  w.rewriter.Nodes[j] in old(w.rewriter.Nodes) || fresh(w.rewriter.Nodes[j])
        invariant forall j :: 0 <= j < i ==> ArgumentLoads(c, j)
        invariant w.Instrs == old(w.Instrs) + CodeOf(ArrayOps(p, i))
    {
      ok := LoadArrayItem(w, c, p, i);
      CodeOfAppend(ArrayOps(p, i), ArrayItemOps(p, i));
      if !ok {
        return;
      }
    }
    ok := true;
  }

  method LoadArrayItem(w: ILRewriterWrapper, c: Caller, p: Plan, i: nat) returns (ok: bool)
    requires w.Valid() && p == PlanOf(c, p.localCount, p.tokens) && i < |c.args| && |c.args| >= FASTPATH_COUNT
    modifies w`Emitted, w`Instrs
    modifies w.rewriter`Nodes, w.rewriter`Body, w.rewriter`Anchors, w.rewriter`maxStack, w.rewriter`instrCount
    modifies w.rewriter.sentinel`next, w.rewriter.sentinel`prev, w.rewriter.Nodes`next, w.rewriter.Nodes`prev
    ensures w.Valid() && old(w.Emitted) <= w.Emitted
    ensures forall i :: |old(w.Emitted)| <= i < |w.Emitted| ==> fresh(w.Emitted[i])
    ensures forall j :: 0 <= j < |w.rewriter.Nodes| ==>
              w.rewriter.Nodes[j] in old(w.rewriter.Nodes) || fresh(w.rewriter.Nodes[j])
    ensures ok == ArgumentLoads(c, i)
    ensures ok ==> w.Instrs == old(w.Instrs) + CodeOf(ArrayItemOps(p, i))
  {
    hide ILRewriterWrapper.Valid, LoadArgument, LoadInt32;
    w.BeginLoadValueIntoArray(i);
    var _ := w.LoadArgument(i + (if c.isStatic then 0 else 1));
    if c.args[i].ByRef? {
      return false;
    }
    if c.args[i].Value? {
      if c.args[i].token == TOKEN_NIL {
        return false;
      }
      var _ := w.Box(c.args[i].token);
    }
    var _ := w.EndLoadValueIntoArray();
    ok := true;
  }

  // ---- the injected parts

  /** The instructions in front of the body, before their leaves have targets. */
  function BeginPart(p: Plan): Code {
    CodeOf(BeginBlock(p)) + [Bare(LEAVE_S), WithToken(CALL, p.tokens.logException), Bare(LEAVE_S)]
  }

  /** The nodes the callback keeps of it. */
  datatype BeginNodes = BeginNodes(first: ILInstr, stateLeave: ILInstr, handler: ILInstr, catchLeave: ILInstr)

  ghost predicate BeginNodesAre(b: BeginNodes, nodes: seq<ILInstr>, n: nat) {
    |nodes| == n + 3 && b == BeginNodes(nodes[0], nodes[n], nodes[n + 1], nodes[n + 2])
  }

  /** Everything in front of the call of BeginMethod. */
  method EmitBeginPre(w: ILRewriterWrapper, c: Caller, p: Plan) returns (ok: bool, first: ILInstr)
    requires w.Valid() && p == PlanOf(c, p.localCount, p.tokens)
    modifies w`Emitted, w`Instrs
    modifies w.rewriter`Nodes, w.rewriter`Body, w.rewriter`Anchors, w.rewriter`maxStack, w.rewriter`instrCount
    modifies w.rewriter.sentinel`next, w.rewriter.sentinel`prev, w.rewriter.Nodes`next, w.rewriter.Nodes`prev
    ensures w.Valid() && old(w.Emitted) <= w.Emitted
    ensures forall i :: |old(w.Emitted)| <= i < |w.Emitted| ==> fresh(w.Emitted[i])
    ensures forall j :: 0 <= j < |w.rewriter.Nodes| ==>
              w.rewriter.Nodes[j] in old(w.rewriter.Nodes) || fresh(w.rewriter.Nodes[j])
    ensures ok == Instrumentable(c)
    ensures |w.Emitted| > |old(w.Emitted)| && first == w.Emitted[|old(w.Emitted)|]
    ensures ok ==> w.Instrs == old(w.Instrs) + CodeOf(BeginPre(p))
  {
    hide ILRewriterWrapper.Valid, StoreLocal, InitOps, ReceiverOps, ArgOps, ArgumentLoads, CodeOf;
    first := InitializeLocals(w, p);
    var instance;
    ok, instance := LoadInstance(w, c);
    if !ok {
      return;
    }
    ok := LoadArguments(w, c, p);
    CodeOfAppend(ReceiverOps(p.receiver), ArgOps(p));
    CodeOfAppend(InitOps(p), ReceiverOps(p.receiver) + ArgOps(p));
  }

  /** The call of BeginMethod. */
  method EmitBeginCall(w: ILRewriterWrapper, p: Plan)
    requires w.Valid()
    modifies w`Emitted, w`Instrs
    modifies w.rewriter`Nodes, w.rewriter`Body, w.rewriter`Anchors, w.rewriter`maxStack, w.rewriter`instrCount
    modifies w.rewriter.sentinel`next, w.rewriter.sentinel`prev, w.rewriter.Nodes`next, w.rewriter.Nodes`prev
    ensures w.Valid() && old(w.Emitted) <= w.Emitted
    ensures forall i :: |old(w.Emitted)| <= i < |w.Emitted| ==> fresh(w.Emitted[i])
    ensures forall j :: 0 <= j < |w.rewriter.Nodes| ==>
              w.rewriter.Nodes[j] in old(w.rewriter.Nodes) || fresh(w.rewriter.Nodes[j])
    ensures w.Instrs == old(w.Instrs) + CodeOf(BeginOps(p))
  {
    hide ILRewriterWrapper.Valid, StoreLocal;
    var _ := w.CallMember(p.tokens.begin, false);
    var _ := w.StLocal(StateLocal(p));
  }

  /** A leave, a handler that logs, and its leave. */
  method EmitGuard(w: ILRewriterWrapper, p: Plan) returns (leave: ILInstr, handler: ILInstr, catchLeave: ILInstr)
    requires w.Valid()
    modifies w`Emitted, w`Instrs
    modifies w.rewriter`Nodes, w.rewriter`Body, w.rewriter`Anchors, w.rewriter`maxStack, w.rewriter`instrCount
    modifies w.rewriter.sentinel`next, w.rewriter.sentinel`prev, w.rewriter.Nodes`next, w.rewriter.Nodes`prev
    ensures w.Valid() && old(w.Emitted) <= w.Emitted
    ensures forall i :: |old(w.Emitted)| <= i < |w.Emitted| ==> fresh(w.Emitted[i])
    ensures forall j :: 0 <= j < |w.rewriter.Nodes| ==>
              w.rewriter.Nodes[j] in old(w.rewriter.Nodes) || fresh(w.rewriter.Nodes[j])
    ensures w.Emitted == old(w.Emitted) + [leave, handler, catchLeave]
    ensures w.Instrs == old(w.Instrs) + [Bare(LEAVE_S), WithToken(CALL, p.tokens.logException), Bare(LEAVE_S)]
  {
    hide ILRewriterWrapper.Valid;
    leave := w.CreateInstr(LEAVE_S);
    handler := w.CallMember(p.tokens.logException, false);
    catchLeave := w.CreateInstr(LEAVE_S);
  }

  method EmitBegin(w: ILRewriterWrapper, c: Caller, p: Plan) returns (ok: bool, b: BeginNodes)
    requires w.Valid() && p == PlanOf(c, p.localCount, p.tokens) && w.Emitted == [] && w.Instrs == []
    modifies w`Emitted, w`Instrs
    modifies w.rewriter`Nodes, w.rewriter`Body, w.rewriter`Anchors, w.rewriter`maxStack, w.rewriter`instrCount
    modifies w.rewriter.sentinel`next, w.rewriter.sentinel`prev, w.rewriter.Nodes`next, w.rewriter.Nodes`prev
    ensures w.Valid() && old(w.Emitted) <= w.Emitted
    ensures forall i :: |old(w.Emitted)| <= i < |w.Emitted| ==> fresh(w.Emitted[i])
    ensures forall j :: 0 <= j < |w.rewriter.Nodes| ==>
              w.rewriter.Nodes[j] in old(w.rewriter.Nodes) || fresh(w.rewriter.Nodes[j])
    ensures ok == Instrumentable(c)
    ensures ok ==> w.Instrs == BeginPart(p) && BeginNodesAre(b, w.Emitted, |BeginBlock(p)|)
  {
    hide ILRewriterWrapper.Valid, BeginPre, BeginOps, BeginBlock, Instrumentable, PlanOf, CodeOf;
    var first;
    ok, first := EmitBeginPre(w, c, p);
    b := BeginNodes(first, first, first, first);
    if !ok {
      return;
    }
    EmitBeginCall(w, p);
    BeginBlockCode(p);
    EmittedSize(w);
    var leave, handler, catchLeave := EmitGuard(w, p);
    b := BeginNodes(first, leave, handler, catchLeave);
  }

  lemma BeginBlockCode(p: Plan)
    ensures CodeOf(BeginBlock(p)) == CodeOf(BeginPre(p)) + CodeOf(BeginOps(p))
  {
    hide InitOps, ReceiverOps, ArgOps, BeginOps;
    assert BeginBlock(p) == BeginPre(p) + BeginOps(p);
    CodeOfAppend(BeginPre(p), BeginOps(p));
  }

  lemma EmittedSize(w: ILRewriterWrapper)
    requires w.Valid()
    ensures |w.Emitted| == |w.Instrs|
  {
  }

  /** The instructions behind the body, before their leaves have targets, without the final return. */
  function EndPart(p: Plan): Code {
    [StoreLocal(ExceptionLocal(p)), Bare(RETHROW)] + CodeOf(EndBlock(p))
    + [Bare(LEAVE_S), WithToken(CALL, p.tokens.logException), Bare(LEAVE_S), Bare(ENDFINALLY)]
    + (if p.isVoid then [] else [LoadLocal(ReturnLocal(p))])
  }

  datatype EndNodes = EndNodes(startCatch: ILInstr, rethrow: ILInstr, tryStart: ILInstr, tryLeave: ILInstr,
                               handler: ILInstr, catchLeave: ILInstr, endFinally: ILInstr)

  ghost predicate EndNodesAre(e: EndNodes, nodes: seq<ILInstr>, n: nat) {
    && n > 0 && |nodes| >= n + 6
    && e == EndNodes(nodes[0], nodes[1], nodes[2], nodes[n + 2], nodes[n + 3], nodes[n + 4], nodes[n + 5])
  }

  /** The arguments of EndMethod after the instance. */
  method EmitEndArguments(w: ILRewriterWrapper, p: Plan)
    requires w.Valid()
    modifies w`Emitted, w`Instrs
    modifies w.rewriter`Nodes, w.rewriter`Body, w.rewriter`Anchors, w.rewriter`maxStack, w.rewriter`instrCount
    modifies w.rewriter.sentinel`next, w.rewriter.sentinel`prev, w.rewriter.Nodes`next, w.rewriter.Nodes`prev
    ensures w.Valid() && old(w.Emitted) <= w.Emitted
    ensures forall i :: |old(w.Emitted)| <= i < |w.Emitted| ==> fresh(w.Emitted[i])
    ensures forall j :: 0 <= j < |w.rewriter.Nodes| ==>
              w.rewriter.Nodes[j] in old(w.rewriter.Nodes) || fresh(w.rewriter.Nodes[j])
    ensures w.Instrs == old(w.Instrs) + CodeOf(EndLoads(p))
  {
    hide ILRewriterWrapper.Valid, LoadLocal;
    if !p.isVoid {
      var _ := w.LoadLocal(ReturnLocal(p));
    }
    var _ := w.LoadLocal(ExceptionLocal(p));
    var _ := w.LoadLocal(StateLocal(p));
  }

  /** The call of GetReturnValue, and the store of what it returns. */
  method EmitGetReturnValue(w: ILRewriterWrapper, p: Plan)
    requires w.Valid()
    modifies w`Emitted, w`Instrs
    modifies w.rewriter`Nodes, w.rewriter`Body, w.rewriter`Anchors, w.rewriter`maxStack, w.rewriter`instrCount
    modifies w.rewriter.sentinel`next, w.rewriter.sentinel`prev, w.rewriter.Nodes`next, w.rewriter.Nodes`prev
    ensures w.Valid() && old(w.Emitted) <= w.Emitted
    ensures forall i :: |old(w.Emitted)| <= i < |w.Emitted| ==> fresh(w.Emitted[i])
    ensures forall j :: 0 <= j < |w.rewriter.Nodes| ==>
              w.rewriter.Nodes[j] in old(w.rewriter.Nodes) || fresh(w.rewriter.Nodes[j])
    ensures w.Instrs == old(w.Instrs)
                          + [LoadLocalAddress(ReturnStateLocal(p)), WithToken(CALL, p.tokens.getReturnValue),
                             StoreLocal(ReturnLocal(p))]
  {
    hide ILRewriterWrapper.Valid, StoreLocal, LoadLocalAddress;
    var _ := w.LoadLocalAddress(ReturnStateLocal(p));
    var _ := w.CallMember(p.tokens.getReturnValue, false);
    var _ := w.StLocal(ReturnLocal(p));
  }

  /** The call of EndMethod and what follows it in its try region. */
  method EmitEndRest(w: ILRewriterWrapper, p: Plan)
    requires w.Valid()
    modifies w`Emitted, w`Instrs
    modifies w.rewriter`Nodes, w.rewriter`Body, w.rewriter`Anchors, w.rewriter`maxStack, w.rewriter`instrCount
    modifies w.rewriter.sentinel`next, w.rewriter.sentinel`prev, w.rewriter.Nodes`next, w.rewriter.Nodes`prev
    ensures w.Valid() && old(w.Emitted) <= w.Emitted
    ensures forall i :: |old(w.Emitted)| <= i < |w.Emitted| ==> fresh(w.Emitted[i])
    ensures forall j :: 0 <= j < |w.rewriter.Nodes| ==>
              w.rewriter.Nodes[j] in old(w.rewriter.Nodes) || fresh(w.rewriter.Nodes[j])
    ensures w.Instrs == old(w.Instrs) + CodeOf(EndRest(p))
  {
    hide ILRewriterWrapper.Valid, StoreLocal, LoadLocalAddress;
    var _ := w.CallMember(p.tokens.end, false);
    var _ := w.StLocal(ReturnStateLocal(p));
    if !p.isVoid {
      EmitGetReturnValue(w, p);
    }
  }

  lemma EndBlockCalls(p: Plan)
    ensures CodeOf(EndBlock(p)) == CodeOf(ReceiverOps(p.receiver)) + CodeOf(EndLoads(p) + EndRest(p))
    ensures |EndBlock(p)| > 0
  {
    hide ReceiverOps, LoadLocal, StoreLocal, LoadLocalAddress;
    CodeOfAppend(ReceiverOps(p.receiver), EndLoads(p) + EndRest(p));
  }

  lemma EndPartParts(p: Plan)
    ensures EndPart(p) == [StoreLocal(ExceptionLocal(p)), Bare(RETHROW)] + CodeOf(EndBlock(p))
                          + [Bare(LEAVE_S), WithToken(CALL, p.tokens.logException), Bare(LEAVE_S)]
                          + [Bare(ENDFINALLY)] + (if p.isVoid then [] else [LoadLocal(ReturnLocal(p))])
  {
    hide CodeOf, EndBlock, StoreLocal, LoadLocal;
  }

  /** The injected catch handler, and the load of the instance behind it. */
  method EmitCatch(w: ILRewriterWrapper, p: Plan) returns (startCatch: ILInstr, rethrow: ILInstr)
    requires w.Valid()
    modifies w`Emitted, w`Instrs
    modifies w.rewriter`Nodes, w.rewriter`Body, w.rewriter`Anchors, w.rewriter`maxStack, w.rewriter`instrCount
    modifies w.rewriter.sentinel`next, w.rewriter.sentinel`prev, w.rewriter.Nodes`next, w.rewriter.Nodes`prev
    ensures w.Valid() && old(w.Emitted) <= w.Emitted
    ensures forall i :: |old(w.Emitted)| <= i < |w.Emitted| ==> fresh(w.Emitted[i])
    ensures forall j :: 0 <= j < |w.rewriter.Nodes| ==>
              w.rewriter.Nodes[j] in old(w.rewriter.Nodes) || fresh(w.rewriter.Nodes[j])
    ensures w.Emitted == old(w.Emitted) + [startCatch, rethrow]
    ensures w.Instrs == old(w.Instrs) + [StoreLocal(ExceptionLocal(p)), Bare(RETHROW)]
  {
    hide ILRewriterWrapper.Valid, StoreLocal;
    startCatch := w.StLocal(ExceptionLocal(p));
    rethrow := w.Rethrow();
  }

  method EmitEndBlock(w: ILRewriterWrapper, c: Caller, p: Plan) returns (ok: bool, first: ILInstr)
    requires w.Valid() && p == PlanOf(c, p.localCount, p.tokens)
    modifies w`Emitted, w`Instrs
    modifies w.rewriter`Nodes, w.rewriter`Body, w.rewriter`Anchors, w.rewriter`maxStack, w.rewriter`instrCount
    modifies w.rewriter.sentinel`next, w.rewriter.sentinel`prev, w.rewriter.Nodes`next, w.rewriter.Nodes`prev
    ensures w.Valid() && old(w.Emitted) <= w.Emitted
    ensures forall i :: |old(w.Emitted)| <= i < |w.Emitted| ==> fresh(w.Emitted[i])
    ensures forall j :: 0 <= j < |w.rewriter.Nodes| ==>
              w.rewriter.Nodes[j] in old(w.rewriter.Nodes) || fresh(w.rewriter.Nodes[j])
    ensures ok == ReceiverLoads(c)
    ensures ok ==> |w.Emitted| > |old(w.Emitted)| && first == w.Emitted[|old(w.Emitted)|]
                   && w.Instrs == old(w.Instrs) + CodeOf(EndBlock(p))
  {
    hide ILRewriterWrapper.Valid, ReceiverOps, EndLoads, EndRest, EndBlock, CodeOf;
    ok, first := LoadInstance(w, c);
    if ok {
      EmitEndArguments(w, p);
      EmitEndRest(w, p);
      CodeOfAppend(EndLoads(p), EndRest(p));
      EndBlockCalls(p);
    }
  }

  /** The end of the finally handler, and the load of the result behind it. */
  method EmitFinally(w: ILRewriterWrapper, p: Plan) returns (endFinally: ILInstr)
    requires w.Valid()
    modifies w`Emitted, w`Instrs
    modifies w.rewriter`Nodes, w.rewriter`Body, w.rewriter`Anchors, w.rewriter`maxStack, w.rewriter`instrCount
    modifies w.rewriter.sentinel`next, w.rewriter.sentinel`prev, w.rewriter.Nodes`next, w.rewriter.Nodes`prev
    ensures w.Valid() && old(w.Emitted) <= w.Emitted
    ensures forall i :: |old(w.Emitted)| <= i < |w.Emitted| ==> fresh(w.Emitted[i])
    ensures forall j :: 0 <= j < |w.rewriter.Nodes| ==>
              w.rewriter.Nodes[j] in old(w.rewriter.Nodes) || fresh(w.rewriter.Nodes[j])
    ensures |w.Emitted| > |old(w.Emitted)| && endFinally == w.Emitted[|old(w.Emitted)|]
    ensures w.Instrs == old(w.Instrs) + [Bare(ENDFINALLY)] + (if p.isVoid then [] else [LoadLocal(ReturnLocal(p))])
  {
    hide ILRewriterWrapper.Valid, LoadLocal;
    endFinally := w.EndFinally();
    if !p.isVoid {
      var _ := w.LoadLocal(ReturnLocal(p));
    }
  }

  /** The try region of EndMethod, guarded: where it starts, its leave, and its handler. */
  method EmitEndRegion(w: ILRewriterWrapper, c: Caller, p: Plan)
    returns (ok: bool, tryStart: ILInstr, tryLeave: ILInstr, handler: ILInstr, catchLeave: ILInstr)
    requires w.Valid() && p == PlanOf(c, p.localCount, p.tokens)
    modifies w`Emitted, w`Instrs
    modifies w.rewriter`Nodes, w.rewriter`Body, w.rewriter`Anchors, w.rewriter`maxStack, w.rewriter`instrCount
    modifies w.rewriter.sentinel`next, w.rewriter.sentinel`prev, w.rewriter.Nodes`next, w.rewriter.Nodes`prev
    ensures w.Valid() && old(w.Emitted) <= w.Emitted
    ensures forall i :: |old(w.Emitted)| <= i < |w.Emitted| ==> fresh(w.Emitted[i])
    ensures forall j :: 0 <= j < |w.rewriter.Nodes| ==>
              w.rewriter.Nodes[j] in old(w.rewriter.Nodes) || fresh(w.rewriter.Nodes[j])
    ensures ok == ReceiverLoads(c)
    ensures ok ==> RegionNodesAre(w.Emitted, |old(w.Emitted)|, |EndBlock(p)|, tryStart, tryLeave, handler, catchLeave)
    ensures ok ==> w.Instrs == old(w.Instrs) + CodeOf(EndBlock(p))
                               + [Bare(LEAVE_S), WithToken(CALL, p.tokens.logException), Bare(LEAVE_S)]
  {
    hide ILRewriterWrapper.Valid, EndBlock, CodeOf, PlanOf, ReceiverLoads;
    EndBlockCalls(p);
    EmittedSize(w);
    ok, tryStart := EmitEndBlock(w, c, p);
    tryLeave, handler, catchLeave := tryStart, tryStart, tryStart;
    if ok {
      EmittedSize(w);
      tryLeave, handler, catchLeave := EmitGuard(w, p);
    }
  }

  ghost predicate RegionNodesAre(nodes: seq<ILInstr>, at: nat, n: nat, tryStart: ILInstr, tryLeave: ILInstr,
                                 handler: ILInstr, catchLeave: ILInstr)
  {
    && |nodes| == at + n + 3 && tryStart == nodes[at]
    && tryLeave == nodes[at + n] && handler == nodes[at + n + 1] && catchLeave == nodes[at + n + 2]
  }

  method EmitEnd(w: ILRewriterWrapper, c: Caller, p: Plan) returns (ok: bool, e: EndNodes)
    requires w.Valid() && p == PlanOf(c, p.localCount, p.tokens) && w.Emitted == [] && w.Instrs == []
    modifies w`Emitted, w`Instrs
    modifies w.rewriter`Nodes, w.rewriter`Body, w.rewriter`Anchors, w.rewriter`maxStack, w.rewriter`instrCount
    modifies w.rewriter.sentinel`next, w.rewriter.sentinel`prev, w.rewriter.Nodes`next, w.rewriter.Nodes`prev
    ensures w.Valid() && old(w.Emitted) <= w.Emitted
    ensures forall i :: |old(w.Emitted)| <= i < |w.Emitted| ==> fresh(w.Emitted[i])
    ensures forall j :: 0 <= j < |w.rewriter.Nodes| ==>
              w.rewriter.Nodes[j] in old(w.rewriter.Nodes) || fresh(w.rewriter.Nodes[j])
    ensures ok == ReceiverLoads(c)
    ensures ok ==> w.Instrs == EndPart(p) && EndNodesAre(e, w.Emitted, |EndBlock(p)|)
  {
    hide ILRewriterWrapper.Valid, StoreLocal, LoadLocal, EndBlock, CodeOf, PlanOf, ReceiverLoads, EndPart;
    EndBlockCalls(p);
    var startCatch, rethrow := EmitCatch(w, p);
    var tryStart, tryLeave, handler, catchLeave;
    ok, tryStart, tryLeave, handler, catchLeave := EmitEndRegion(w, c, p);
    e := EndNodes(startCatch, rethrow, tryStart, tryLeave, handler, catchLeave, startCatch);
    if !ok {
      return;
    }
    var endFinally := EmitFinally(w, p);
    e := EndNodes(startCatch, rethrow, tryStart, tryLeave, handler, catchLeave, endFinally);
    EndPartParts(p);
  }
}
