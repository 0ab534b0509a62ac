/** The new instruction list: prologue, body and epilogue put together in place, and what it is as a value. */
module CallTargetRewriter {
  import opened OpCodes
  import opened ILCode
  import opened ILRewriterModel
  import opened ILRewriterWrapperModel
  import opened CallTargetCode
  import opened CallTargetEmission
  import opened CallTargetReturns
  import opened CallTargetEncoding

  // ---- prologue and epilogue in place

  ghost predicate LeavesTo(node: ILInstr, target: ILInstr)
    reads node`opcode, node`operand
  {
    node.opcode == LEAVE_S && node.operand == Branch(target)
  }

  /** Nodes hold the instructions of a part; its two leaves, at x and x + 2, have got their target. */
  ghost predicate PartReady(nodes: seq<ILInstr>, part: Code, x: nat, target: ILInstr)
    reads nodes`opcode, nodes`operand
  {
    |nodes| == |part|
    && forall i :: 0 <= i < |nodes| ==>
         if i == x || i == x + 2 then LeavesTo(nodes[i], target) else NodeIs(nodes[i], part[i])
  }

  /** Gives the two leaves around a handler their target. */
  method SetGuardTargets(rw: ILRewriter, leave: ILInstr, catchLeave: ILInstr, target: ILInstr,
                         ghost at: nat, ghost nodes: seq<ILInstr>, ghost part: Code, ghost x: nat)
    requires rw.Valid() && at + |nodes| <= |rw.Nodes| && rw.Nodes[at..at + |nodes|] == nodes && target in rw.Nodes
    requires NodesAre(nodes, part) && x + 2 < |nodes| && leave == nodes[x] && catchLeave == nodes[x + 2]
    requires part[x] == part[x + 2] == Bare(LEAVE_S)
    modifies rw`Body, leave`operand, catchLeave`operand
    ensures rw.Valid() && PartReady(nodes, part, x, target)
  {
    hide ILRewriter.Ring, Mirrors, ClausesAre;
    forall i: nat | i < |nodes| ensures rw.Nodes[at + i] == nodes[i] {
      assert rw.Nodes[at..at + |nodes|][i] == rw.Nodes[at + i];
    }
    AllDistinct(rw);
    ghost var t :| 0 <= t < |rw.Nodes| && rw.Nodes[t] == target;
    forall i: nat | i < |nodes| ensures NodeIs(nodes[i], part[i]) {
    }
    rw.SetTarget(leave, target, at + x, t);
    rw.SetTarget(catchLeave, target, at + x + 2, t);
    assert rw.Nodes[at + x] != rw.Nodes[at + x + 2];
    forall i | 0 <= i < |nodes| && i != x && i != x + 2 ensures nodes[i] != leave && nodes[i] != catchLeave {
      assert rw.Nodes[at + i] != rw.Nodes[at + x];
      assert rw.Nodes[at + i] != rw.Nodes[at + x + 2];
    }
  }

  method InsertPrologue(w: ILRewriterWrapper, c: Caller, p: Plan) returns (ok: bool, b: BeginNodes)
    requires w.Valid() && p == PlanOf(c, p.localCount, p.tokens)
    requires w.Emitted == [] && w.Instrs == [] && w.Front == [] && w.Back != []
    modifies w`Emitted, w`Instrs
    modifies w.rewriter`Nodes, w.rewriter`Body, w.rewriter`Anchors, w.rewriter`maxStack, w.rewriter`instrCount
    modifies w.rewriter.sentinel`next, w.rewriter.sentinel`prev, w.rewriter.Nodes`next, w.rewriter.Nodes`prev
    ensures w.rewriter.Valid() && w.rewriter.Nodes == w.Emitted + w.Back
    ensures forall i :: 0 <= i < |w.Emitted| ==> fresh(w.Emitted[i])
    ensures ok == Instrumentable(c)
    ensures ok ==> PartReady(w.Emitted, BeginPart(p), |BeginBlock(p)|, w.Back[0])
                   && BeginNodesAre(b, w.Emitted, |BeginBlock(p)|)
  {
    hide ILRewriter.Valid, ILRewriter.Ring, Mirrors, ClausesAre, BeginBlock, Instrumentable, PlanOf, CodeOf, NodesAre,
      PartReady;
    ok, b := EmitBegin(w, c, p);
    if !ok {
      return;
    }
    BeginPartAt(p);
    ghost var nodes := w.Emitted;
    assert w.rewriter.Nodes == nodes + w.Back;
    assert w.rewriter.Nodes[0..0 + |nodes|] == nodes;
    assert w.rewriter.Nodes[|nodes|] == w.Back[0];
    EmittedSize(w);
    SetGuardTargets(w.rewriter, b.stateLeave, b.catchLeave, w.cursor, 0, nodes, w.Instrs, |BeginBlock(p)|);
  }

  /** A return at the end of the list, and the cursor on it. */
  method AppendReturn(w: ILRewriterWrapper) returns (ret: ILInstr)
    requires w.rewriter.Valid()
    modifies w, w.rewriter`Nodes, w.rewriter`Body, w.rewriter`Anchors, w.rewriter`maxStack, w.rewriter`instrCount
    modifies w.rewriter.sentinel`next, w.rewriter.sentinel`prev, w.rewriter.Nodes`next, w.rewriter.Nodes`prev
    ensures w.Valid() && fresh(ret) && NodeIs(ret, Bare(RET))
    ensures w.rewriter.Nodes == old(w.rewriter.Nodes) + [ret]
    ensures w.Front == old(w.rewriter.Nodes) && w.Emitted == [] && w.Instrs == [] && w.Back == [ret]
  {
    hide ILRewriter.Ring, Mirrors, ClausesAre;
    LastNode(w.rewriter);
    ret := w.rewriter.NewILInstr();
    ret.opcode := RET;
    w.rewriter.InsertAfter(w.rewriter.sentinel.prev, ret, |w.rewriter.Nodes| - 1, Bits(0));
    w.SetILPosition(ret, |w.rewriter.Nodes| - 1);
  }

  lemma LastNode(rw: ILRewriter)
    requires rw.Valid()
    ensures rw.sentinel.prev == rw.At(|rw.Nodes| - 1)
  {
    assert rw.LinkedAt(|rw.Nodes| - 1);
  }

  /** The two leaves of the EndMethod region get their target. */
  method SetEndTargets(rw: ILRewriter, p: Plan, e: EndNodes, ghost front: seq<ILInstr>, ghost epi: seq<ILInstr>)
    requires rw.Valid() && rw.Nodes == front + epi && NodesAre(epi, EndPartReturning(p))
    requires EndNodesAre(e, epi, |EndBlock(p)|)
    modifies rw`Body, e.tryLeave`operand, e.catchLeave`operand
    ensures rw.Valid() && PartReady(epi, EndPartReturning(p), |EndBlock(p)| + 2, e.endFinally)
  {
    hide ILRewriter.Valid, EndBlock, EndPart, CodeOf, PartReady;
    EndPartAt(p);
    assert rw.Nodes[|front|..|front| + |epi|] == epi;
    assert rw.Nodes[|front| + |EndBlock(p)| + 5] == e.endFinally;
    SetGuardTargets(rw, e.tryLeave, e.catchLeave, e.endFinally, |front|, epi, EndPartReturning(p), |EndBlock(p)| + 2);
  }

  method InsertEpilogue(w: ILRewriterWrapper, c: Caller, p: Plan)
    returns (ok: bool, e: EndNodes, ret: ILInstr, ghost epi: seq<ILInstr>)
    requires w.rewriter.Valid() && p == PlanOf(c, p.localCount, p.tokens)
    modifies w, w.rewriter`Nodes, w.rewriter`Body, w.rewriter`Anchors, w.rewriter`maxStack, w.rewriter`instrCount
    modifies w.rewriter.sentinel`next, w.rewriter.sentinel`prev, w.rewriter.Nodes`next, w.rewriter.Nodes`prev
    ensures w.rewriter.Valid() && w.rewriter.Nodes == old(w.rewriter.Nodes) + epi
    ensures forall i :: 0 <= i < |epi| ==> fresh(epi[i])
    ensures ok == ReceiverLoads(c)
    ensures ok ==> PartReady(epi, EndPartReturning(p), |EndBlock(p)| + 2, e.endFinally)
                   && EndNodesAre(e, epi, |EndBlock(p)|) && ret == epi[|epi| - 1]
  {
    hide ILRewriter.Valid, ILRewriter.Ring, Mirrors, ClausesAre, EndBlock, ReceiverLoads, PlanOf, CodeOf, PartReady;
    ghost var front := w.rewriter.Nodes;
    ret := AppendReturn(w);
    ok, e := EmitEnd(w, c, p);
    ghost var nodes, part := w.Emitted, w.Instrs;
    epi := nodes + [ret];
    assert w.rewriter.Nodes == front + epi;
    if !ok {
      return;
    }
    NodesAreAppended(nodes, part, ret, Bare(RET));
    SetEndTargets(w.rewriter, p, e, front, epi);
  }

  lemma NodesAreAppended(nodes: seq<ILInstr>, part: Code, node: ILInstr, i: Instr)
    requires NodesAre(nodes, part) && NodeIs(node, i)
    ensures NodesAre(nodes + [node], part + [i])
  {
  }

  // ---- positions in the finished list

  /** The opcodes of a list made of a prologue, the body and an epilogue that ends with the final return. */
  predicate Sandwich(code: Code, whole: Code, b: nat) {
    && b + |code| < |whole|
    && (forall i :: 0 <= i < b ==> whole[i].opcode != RET)
    && (forall k :: 0 <= k < |code| ==> whole[b + k].opcode == code[k].opcode)
    && (forall i :: b + |code| <= i < |whole| - 1 ==> whole[i].opcode != RET)
  }

  lemma {:induction false} NoRetCount(p: Plan, whole: Code, from: nat, j: nat)
    requires from <= j <= |whole| && forall i :: from <= i < j ==> whole[i].opcode != RET
    ensures RetCount(p, whole, j) == RetCount(p, whole, from)
    decreases j
  {
    if from < j {
      NoRetCount(p, whole, from, j - 1);
    }
  }

  lemma {:induction false} BodyRetCount(p: Plan, code: Code, whole: Code, b: nat, k: nat)
    requires Sandwich(code, whole, b) && k <= |code|
    ensures RetCount(p, whole, b + k) == RetCount(p, code, k)
  {
    if k == 0 {
      NoRetCount(p, whole, 0, b);
    } else {
      BodyRetCount(p, code, whole, b, k - 1);
      assert whole[b + (k - 1)].opcode == code[k - 1].opcode;
    }
  }

  /** Where the nodes of the three parts are once all returns have been visited. */
  lemma PlacesOfParts(p: Plan, code: Code, whole: Code, i: nat)
    requires Sandwich(code, whole, BodyStart(p)) && i < |whole|
    ensures var b, n := BodyStart(p), |code|;
            && Stores(p, whole, |whole|) == RetCount(p, code, n)
            && (i < b ==> Place(p, whole, i) == i && !IsOldReturn(whole, i))
            && (b <= i < b + n ==> Place(p, whole, i) == NodePos(p, code, i - b)
                                   && IsOldReturn(whole, i) == (code[i - b].opcode == RET))
            && (b + n <= i ==> Place(p, whole, i) == CatchPos(p, code) + (i - b - n) && !IsOldReturn(whole, i))
  {
    hide BodyStart;
    var b, n := BodyStart(p), |code|;
    BodyRetCount(p, code, whole, b, n);
    NoRetCount(p, whole, b + n, |whole| - 1);
    if i < b {
      NoRetCount(p, whole, 0, i);
    } else if i < b + n {
      BodyRetCount(p, code, whole, b, i - b);
      assert whole[b + (i - b)].opcode == code[i - b].opcode;
    } else {
      NoRetCount(p, whole, b + n, i);
    }
  }

  // ---- the edited list

  /** Node k of the original body in the finished list. */
  ghost predicate OldNode(p: Plan, code: Code, sentinel: ILInstr, orig: seq<ILInstr>, target: ILInstr,
                          nodes: seq<ILInstr>, k: nat)
    requires k < |code| == |orig|
    reads orig, nodes
  {
    var q := NodePos(p, code, k);
    && q < |nodes| && nodes[q] == orig[k]
    && (if code[k].opcode == RET then
          LeavesTo(orig[k], target) && (!p.isVoid ==> NodeIs(nodes[q - 1], StoreLocal(ReturnLocal(p))))
        else orig[k].opcode == code[k].opcode && Denotes(orig, sentinel, orig[k].operand, code[k].operand))
  }

  ghost predicate OldNodes(p: Plan, code: Code, sentinel: ILInstr, orig: seq<ILInstr>, target: ILInstr,
                           nodes: seq<ILInstr>)
    requires |code| == |orig|
    reads orig, nodes
  {
    forall k :: 0 <= k < |code| ==> OldNode(p, code, sentinel, orig, target, nodes, k)
  }

  ghost predicate PartAt(nodes: seq<ILInstr>, at: nat, part: seq<ILInstr>) {
    at + |part| <= |nodes| && forall i :: 0 <= i < |part| ==> nodes[at + i] == part[i]
  }

  /** The finished list, in terms of its nodes. */
  ghost predicate Edited(p: Plan, code: Code, sentinel: ILInstr, pro: seq<ILInstr>, orig: seq<ILInstr>,
                         epi: seq<ILInstr>, nodes: seq<ILInstr>)
    reads pro, orig, epi, nodes
  {
    var n := |EndBlock(p)|;
    && |orig| == |code| > 0 && |epi| >= n + 7 && |nodes| == TotalSize(p, code)
    && PartReady(pro, BeginPart(p), |BeginBlock(p)|, orig[0])
    && PartReady(epi, EndPartReturning(p), n + 2, epi[n + 5])
    && PartAt(nodes, 0, pro) && PartAt(nodes, CatchPos(p, code), epi)
    && OldNodes(p, code, sentinel, orig, epi[n + 6], nodes)
  }

  /** The list before the returns are visited. */
  ghost predicate Assembled(p: Plan, code: Code, sentinel: ILInstr, pro: seq<ILInstr>, orig: seq<ILInstr>,
                            epi: seq<ILInstr>)
    reads pro, orig, epi
  {
    var n := |EndBlock(p)|;
    && |orig| == |code| > 0 && |epi| >= n + 7
    && PartReady(pro, BeginPart(p), |BeginBlock(p)|, orig[0])
    && PartReady(epi, EndPartReturning(p), n + 2, epi[n + 5])
    && Mirrors(orig, sentinel, code)
  }

  lemma PartReadyOpcodes(nodes: seq<ILInstr>, part: Code, x: nat, target: ILInstr)
    requires PartReady(nodes, part, x, target)
    requires forall i :: i == x || i == x + 2 ==> i < |part| && part[i].opcode == LEAVE_S
    ensures |nodes| == |part| && forall i :: 0 <= i < |nodes| ==> nodes[i].opcode == part[i].opcode
  {
  }

  /** The opcodes of the assembled list. */
  lemma AssembledOpcodes(p: Plan, code: Code, sentinel: ILInstr, pro: seq<ILInstr>, orig: seq<ILInstr>,
                         epi: seq<ILInstr>, whole: Code)
    requires Assembled(p, code, sentinel, pro, orig, epi)
    requires |whole| == |pro| + |orig| + |epi|
    requires forall k :: 0 <= k < |whole| ==> (pro + orig + epi)[k].opcode == whole[k].opcode
    ensures |pro| == BodyStart(p) && Sandwich(code, whole, |pro|)
    ensures |epi| == |EndPartReturning(p)| && whole[|whole| - 1].opcode == RET
  {
    hide BeginPart, EndPart, BeginBlock, EndBlock;
    BeginPartAt(p);
    EndPartAt(p);
    PartReadyOpcodes(pro, BeginPart(p), |BeginBlock(p)|, orig[0]);
    PartReadyOpcodes(epi, EndPartReturning(p), |EndBlock(p)| + 2, epi[|EndBlock(p)| + 5]);
    BeginInjectable(p);
    EndInjectable(p);
    var L, b, n := pro + orig + epi, |pro|, |code|;
    forall i | 0 <= i < b ensures whole[i].opcode != RET {
      assert L[i] == pro[i];
    }
    forall k: nat | k < n ensures whole[b + k].opcode == code[k].opcode {
      assert L[b + k] == orig[k] && Holds(orig, sentinel, code, k);
    }
    forall i | b + n <= i < |whole| ensures whole[i].opcode == EndPartReturning(p)[i - b - n].opcode {
      assert L[i] == epi[i - b - n];
    }
  }

  lemma VisitedParts(p: Plan, code: Code, whole: Code, pro: seq<ILInstr>, orig: seq<ILInstr>, epi: seq<ILInstr>,
                     was: seq<Payload>, nodes: seq<ILInstr>, target: ILInstr)
    requires |pro| == BodyStart(p) && Sandwich(code, whole, |pro|) && |code| == |orig|
    requires |whole| == |pro| + |orig| + |epi| == |was| && |epi| == |EndPartReturning(p)|
    requires ReturnsDone(p, whole, pro + orig + epi, was, nodes, target, |whole|)
    ensures |nodes| == TotalSize(p, code) && PartAt(nodes, 0, pro) && PartAt(nodes, CatchPos(p, code), epi)
    ensures forall i :: 0 <= i < |pro| ==> pro[i].opcode == whole[i].opcode && pro[i].operand == was[i]
    ensures forall i :: 0 <= i < |epi| ==> Unchanged(whole, was, epi, i)
  {
    hide BeginBlock, EndBlock, EndPart, Place, Visited, Stores, Sandwich, BodyStart;
    var L, b, n := pro + orig + epi, |pro|, |code|;
    EndPartAt(p);
    PlacesOfParts(p, code, whole, 0);
    forall i | 0 <= i < b ensures i < |nodes| && nodes[i] == pro[i] && pro[i].opcode == whole[i].opcode
      && pro[i].operand == was[i] {
      PlacesOfParts(p, code, whole, i);
      VisitedOther(p, whole, L, was, nodes, target, i);
      assert L[i] == pro[i];
    }
    var c := CatchPos(p, code);
    forall i: nat | i < |epi| ensures c + i < |nodes| && nodes[c + i] == epi[i] && Unchanged(whole, was, epi, i) {
      PlacesOfParts(p, code, whole, b + n + i);
      VisitedOther(p, whole, L, was, nodes, target, b + n + i);
      assert L[b + n + i] == epi[i];
    }
    assert |nodes| == |whole| + Stores(p, whole, |whole|);
  }

  /** Node i of a list's last part holds what the list held there. */
  ghost predicate Unchanged(whole: Code, was: seq<Payload>, nodes: seq<ILInstr>, i: nat)
    requires i < |nodes| <= |whole| == |was|
    reads nodes
  {
    var at := |whole| - |nodes| + i;
    nodes[i].opcode == whole[at].opcode && nodes[i].operand == was[at]
  }

  lemma VisitedOther(p: Plan, whole: Code, L: seq<ILInstr>, was: seq<Payload>, nodes: seq<ILInstr>, target: ILInstr,
    i: nat)
    requires |L| == |whole| == |was| && i < |L| && !IsOldReturn(whole, i)
    requires ReturnsDone(p, whole, L, was, nodes, target, |whole|)
    ensures Place(p, whole, i) < |nodes| && nodes[Place(p, whole, i)] == L[i]
    ensures L[i].opcode == whole[i].opcode && L[i].operand == was[i]
  {
    hide Place, Stores;
    assert Visited(p, whole, L, was, nodes, target, i);
  }

  lemma VisitedBody(p: Plan, code: Code, whole: Code, pro: seq<ILInstr>, orig: seq<ILInstr>, epi: seq<ILInstr>,
                    was: seq<Payload>, nodes: seq<ILInstr>, target: ILInstr, sentinel: ILInstr)
    requires |pro| == BodyStart(p) && Sandwich(code, whole, |pro|) && |code| == |orig|
    requires |whole| == |pro| + |orig| + |epi| == |was|
    requires ReturnsDone(p, whole, pro + orig + epi, was, nodes, target, |whole|)
    requires forall k :: 0 <= k < |code| ==> Denotes(orig, sentinel, was[|pro| + k], code[k].operand)
    ensures OldNodes(p, code, sentinel, orig, target, nodes)
  {
    hide Place, Stores, BodyStart, NodePos, StoreLocal, Denotes, ReturnsDone;
    var L, b := pro + orig + epi, |pro|;
    forall k: nat | k < |code| ensures OldNode(p, code, sentinel, orig, target, nodes, k) {
      PlacesOfParts(p, code, whole, b + k);
      assert Visited(p, whole, L, was, nodes, target, b + k) by { VisitedAll(p, whole, L, was, nodes, target, b + k); }
      assert L[b + k] == orig[k];
      assert whole[b + k].opcode == code[k].opcode;
    }
  }

  lemma VisitedAll(p: Plan, whole: Code, L: seq<ILInstr>, was: seq<Payload>, nodes: seq<ILInstr>, target: ILInstr,
    k: nat)
    requires |L| == |whole| == |was| && k < |L| && ReturnsDone(p, whole, L, was, nodes, target, |whole|)
    ensures Visited(p, whole, L, was, nodes, target, k)
  {
    hide Visited, Stores;
  }

  /** Operands of a list of nodes. */
  ghost function OperandsOf(nodes: seq<ILInstr>): (r: seq<Payload>)
    reads nodes
    ensures |r| == |nodes| && forall i :: 0 <= i < |nodes| ==> r[i] == nodes[i].operand
  {
    seq(|nodes|, i requires 0 <= i < |nodes| reads nodes => nodes[i].operand)
  }

  lemma BodyOpcodes(rw: ILRewriter)
    requires rw.Valid()
    ensures |rw.Body| == |rw.Nodes| && forall i :: 0 <= i < |rw.Nodes| ==> rw.Nodes[i].opcode == rw.Body[i].opcode
  {
    forall i: nat | i < |rw.Nodes| ensures rw.Nodes[i].opcode == rw.Body[i].opcode {
      assert Holds(rw.Nodes, rw.sentinel, rw.Body, i);
    }
  }

  /** A part of a list, given by the opcodes and operands of the whole, is ready. */
  ghost predicate PartValues(whole: Code, was: seq<Payload>, at: nat, part: Code, x: nat, target: ILInstr) {
    && at + |part| <= |whole| == |was|
    && forall i :: 0 <= i < |part| ==>
              ReadyValue(whole[at + i].opcode, was[at + i], part[i], i == x || i == x + 2, target)
  }

  ghost predicate ReadyValue(opcode: nat, operand: Payload, i: Instr, leaves: bool, target: ILInstr) {
    if leaves then opcode == LEAVE_S && operand == Branch(target)
    else i.operand.Bits? && opcode == i.opcode && operand == Raw(i.operand.w)
  }

  ghost predicate Holding(nodes: seq<ILInstr>, whole: Code, was: seq<Payload>, at: nat)
    reads nodes
  {
    && at + |nodes| <= |whole| == |was|
    && forall i :: 0 <= i < |nodes| ==> nodes[i].opcode == whole[at + i].opcode && nodes[i].operand == was[at + i]
  }

  lemma ReadyIffValues(nodes: seq<ILInstr>, whole: Code, was: seq<Payload>, at: nat, part: Code, x: nat,
    target: ILInstr)
    requires |nodes| == |part| && Holding(nodes, whole, was, at)
    ensures PartReady(nodes, part, x, target) <==> PartValues(whole, was, at, part, x, target)
  {
    if PartReady(nodes, part, x, target) {
      forall i | 0 <= i < |part|
        ensures ReadyValue(whole[at + i].opcode, was[at + i], part[i], i == x || i == x + 2, target)
      {
        assert nodes[i].opcode == whole[at + i].opcode;
      }
    }
    if PartValues(whole, was, at, part, x, target) {
      forall i | 0 <= i < |nodes|
        ensures if i == x || i == x + 2 then LeavesTo(nodes[i], target) else NodeIs(nodes[i], part[i])
      {
        assert ReadyValue(whole[at + i].opcode, was[at + i], part[i], i == x || i == x + 2, target);
      }
    }
  }

  /** Before the returns are visited: the parts in terms of opcodes and operands of the whole list. */
  lemma PartsBefore(p: Plan, code: Code, sentinel: ILInstr, pro: seq<ILInstr>, orig: seq<ILInstr>, epi: seq<ILInstr>,
                    whole: Code, was: seq<Payload>)
    requires Assembled(p, code, sentinel, pro, orig, epi) && |epi| == |EndPartReturning(p)|
    requires Holding(pro + orig + epi, whole, was, 0) && |whole| == |pro| + |orig| + |epi|
    ensures PartValues(whole, was, 0, BeginPart(p), |BeginBlock(p)|, orig[0])
    ensures PartValues(whole, was, |whole| - |epi|, EndPartReturning(p), |EndBlock(p)| + 2, epi[|EndBlock(p)| + 5])
  {
    hide BeginPart, EndPartReturning, BeginBlock, EndBlock, PartReady, PartValues, Mirrors;
    var L := pro + orig + epi;
    assert |pro| == |BeginPart(p)| by { PartSize(pro, BeginPart(p), |BeginBlock(p)|, orig[0]); }
    forall i: nat | i < |pro| ensures pro[i].opcode == whole[i].opcode && pro[i].operand == was[i] {
      assert L[i] == pro[i];
    }
    ReadyIffValues(pro, whole, was, 0, BeginPart(p), |BeginBlock(p)|, orig[0]);
    var at := |pro| + |orig|;
    forall i: nat | i < |epi| ensures epi[i].opcode == whole[at + i].opcode && epi[i].operand == was[at + i] {
      assert L[at + i] == epi[i];
    }
    ReadyIffValues(epi, whole, was, at, EndPartReturning(p), |EndBlock(p)| + 2, epi[|EndBlock(p)| + 5]);
  }

  lemma PartSize(nodes: seq<ILInstr>, part: Code, x: nat, target: ILInstr)
    requires PartReady(nodes, part, x, target)
    ensures |nodes| == |part|
  {
  }

  /** And after. */
  lemma PartsAfter(p: Plan, pro: seq<ILInstr>, epi: seq<ILInstr>, whole: Code, was: seq<Payload>, first: ILInstr,
                   target: ILInstr)
    requires PartValues(whole, was, 0, BeginPart(p), |BeginBlock(p)|, first) && |pro| == |BeginPart(p)|
    requires |epi| == |EndPartReturning(p)| <= |whole| == |was|
    requires PartValues(whole, was, |whole| - |epi|, EndPartReturning(p), |EndBlock(p)| + 2, target)
    requires forall i :: 0 <= i < |pro| ==> i < |whole| && pro[i].opcode == whole[i].opcode && pro[i].operand == was[i]
    requires forall i :: 0 <= i < |epi| ==> Unchanged(whole, was, epi, i)
    ensures PartReady(pro, BeginPart(p), |BeginBlock(p)|, first)
    ensures PartReady(epi, EndPartReturning(p), |EndBlock(p)| + 2, target)
  {
    hide BeginPart, EndPartReturning, BeginBlock, EndBlock, PartReady;
    assert |pro| <= |whole|;
    hide PartValues;
    ReadyIffValues(pro, whole, was, 0, BeginPart(p), |BeginBlock(p)|, first);
    var at := |whole| - |epi|;
    forall i: nat | i < |epi| ensures epi[i].opcode == whole[at + i].opcode && epi[i].operand == was[at + i] {
      assert Unchanged(whole, was, epi, i);
    }
    ReadyIffValues(epi, whole, was, at, EndPartReturning(p), |EndBlock(p)| + 2, target);
  }

  lemma HoldingAll(rw: ILRewriter, was: seq<Payload>)
    requires rw.Valid() && was == OperandsOf(rw.Nodes)
    ensures Holding(rw.Nodes, rw.Body, was, 0)
  {
    hide ILRewriter.Valid;
    BodyOpcodes(rw);
  }

  /** Visits the returns of an assembled list. */
  method EditReturns(w: ILRewriterWrapper, p: Plan, e: EndNodes, ret: ILInstr, ghost code: Code,
                     ghost pro: seq<ILInstr>, ghost orig: seq<ILInstr>, ghost epi: seq<ILInstr>)
    requires w.rewriter.Valid() && w.rewriter.Nodes == pro + orig + epi
    requires Assembled(p, code, w.rewriter.sentinel, pro, orig, epi)
    requires EndNodesAre(e, epi, |EndBlock(p)|) && ret == epi[|epi| - 1]
    modifies w, w.rewriter.Nodes`opcode, w.rewriter.Nodes`operand
    modifies w.rewriter`Nodes, w.rewriter`Body, w.rewriter`Anchors, w.rewriter`maxStack, w.rewriter`instrCount
    modifies w.rewriter.sentinel`next, w.rewriter.sentinel`prev, w.rewriter.Nodes`next, w.rewriter.Nodes`prev
    ensures w.rewriter.Valid() && Edited(p, code, w.rewriter.sentinel, pro, orig, epi, w.rewriter.Nodes)
    ensures forall i :: 0 <= i < |w.rewriter.Nodes| ==>
              w.rewriter.Nodes[i] in old(w.rewriter.Nodes) || fresh(w.rewriter.Nodes[i])
  {
    hide ILRewriter.Valid, ILRewriter.Ring, Mirrors, BeginBlock, EndBlock, BeginPart, EndPart, ReturnsDone, PartReady,
      Sandwich, EndPartReturning, TotalSize, CatchPos, OldNodes, PartValues, Holding, BodyStart, PartAt, Unchanged;
    ghost var rw := w.rewriter;
    ghost var L := rw.Nodes;
    ghost var whole, was := rw.Body, OperandsOf(L);
    BodyOpcodes(rw);
    HoldingAll(rw, was);
    AssembledOpcodes(p, code, rw.sentinel, pro, orig, epi, whole);
    PartsBefore(p, code, rw.sentinel, pro, orig, epi, whole, was);
    EndTarget(rw, p, e, pro + orig, epi);
    DenotesBefore(code, rw.sentinel, pro, orig, epi, was);
    var target := e.endFinally.next;
    ReturnsToLeaves(w, p, ret, target, whole, was);
    VisitedParts(p, code, whole, pro, orig, epi, was, w.rewriter.Nodes, target);
    VisitedBody(p, code, whole, pro, orig, epi, was, w.rewriter.Nodes, target, rw.sentinel);
    BeginPartSize(p);
    PartsAfter(p, pro, epi, whole, was, orig[0], epi[|EndBlock(p)| + 5]);
  }

  /** The node after the injected finally handler. */
  lemma EndTarget(rw: ILRewriter, p: Plan, e: EndNodes, front: seq<ILInstr>, epi: seq<ILInstr>)
    requires rw.Valid() && rw.Nodes == front + epi && EndNodesAre(e, epi, |EndBlock(p)|) && |epi| >= |EndBlock(p)| + 7
    ensures e.endFinally.next == epi[|EndBlock(p)| + 6] && epi[|EndBlock(p)| + 6] in rw.Nodes
  {
    hide ILRewriter.Valid, EndBlock;
    var i := |front| + |EndBlock(p)| + 5;
    assert rw.Nodes[i] == e.endFinally && rw.Nodes[i + 1] == epi[|EndBlock(p)| + 6];
    NextNode(rw, i);
  }

  lemma DenotesBefore(code: Code, sentinel: ILInstr, pro: seq<ILInstr>, orig: seq<ILInstr>, epi: seq<ILInstr>,
                      was: seq<Payload>)
    requires Mirrors(orig, sentinel, code) && was == OperandsOf(pro + orig + epi)
    ensures forall k :: 0 <= k < |code| ==> Denotes(orig, sentinel, was[|pro| + k], code[k].operand)
  {
    hide Denotes;
    var L := pro + orig + epi;
    forall k: nat | k < |code| ensures Denotes(orig, sentinel, was[|pro| + k], code[k].operand) {
      assert Holds(orig, sentinel, code, k) && L[|pro| + k] == orig[k];
    }
  }

  // ---- the edited list as a value

  lemma BodyBits(rw: ILRewriter, q: nat, i: Instr)
    requires rw.Valid() && q < |rw.Nodes| && NodeIs(rw.Nodes[q], i)
    ensures rw.Body[q] == i
  {
    assert Holds(rw.Nodes, rw.sentinel, rw.Body, q);
  }

  lemma BodyTarget(rw: ILRewriter, q: nat, t: nat)
    requires rw.Valid() && q < |rw.Nodes| && t <= |rw.Nodes| && rw.Nodes[q].operand == Branch(rw.At(t))
    ensures rw.Body[q] == Instr(rw.Nodes[q].opcode, Target(t))
  {
    assert Holds(rw.Nodes, rw.sentinel, rw.Body, q);
    AtInjective(rw, t);
  }

  lemma AtInjective(rw: ILRewriter, t: nat)
    requires rw.Valid() && t <= |rw.Nodes|
    ensures forall i :: 0 <= i <= |rw.Nodes| && rw.At(i) == rw.At(t) ==> i == t
  {
  }

  /** The nodes of the old list, and its sentinel, are where NewPos says. */
  lemma RingKept(rw: ILRewriter, p: Plan, code: Code, pro: seq<ILInstr>, orig: seq<ILInstr>, epi: seq<ILInstr>, t: nat)
    requires Edited(p, code, rw.sentinel, pro, orig, epi, rw.Nodes) && t <= |code|
    ensures NewPos(p, code, t) <= |rw.Nodes| && RingAt(orig, rw.sentinel, t) == rw.At(NewPos(p, code, t))
  {
    hide PartReady, PartAt, NodePos, TotalSize;
    if t < |code| {
      assert OldNode(p, code, rw.sentinel, orig, epi[|EndBlock(p)| + 6], rw.Nodes, t);
    }
  }

  lemma PrologueInPlace(rw: ILRewriter, p: Plan, code: Code, pro: seq<ILInstr>, orig: seq<ILInstr>, epi: seq<ILInstr>)
    requires rw.Valid() && Edited(p, code, rw.sentinel, pro, orig, epi, rw.Nodes)
    ensures BodyStart(p) <= |rw.Body| && rw.Body[..BodyStart(p)] == Prologue(p, code)
  {
    hide ILRewriter.Valid, BeginBlock, BeginPart, EndBlock, Prologue, NodePos, OldNodes, TotalSize, EndPartReturning;
    BodyOpcodes(rw);
    BeginPartSize(p);
    PrologueShape(p, code, 0);
    RingKept(rw, p, code, pro, orig, epi, 0);
    var n := |BeginBlock(p)|;
    forall i: nat | i < |pro| ensures rw.Body[i] == Prologue(p, code)[i] {
      assert rw.Nodes[0 + i] == pro[i];
      PrologueShape(p, code, i);
      if i == n || i == n + 2 {
        BodyTarget(rw, i, NodePos(p, code, 0));
      } else {
        BodyBits(rw, i, BeginPart(p)[i]);
      }
    }
  }

  lemma EpilogueInPlace(rw: ILRewriter, p: Plan, code: Code, pro: seq<ILInstr>, orig: seq<ILInstr>, epi: seq<ILInstr>)
    requires rw.Valid() && Edited(p, code, rw.sentinel, pro, orig, epi, rw.Nodes)
    ensures CatchPos(p, code) <= |rw.Body| && rw.Body[CatchPos(p, code)..] == Epilogue(p, code)
  {
    hide ILRewriter.Valid, BeginBlock, BeginPart, EndBlock, Epilogue, CatchPos, OldNodes, EndPart, PartReady;
    BodyOpcodes(rw);
    EndPartAt(p);
    EndShape(p, code, 0);
    var n, c := |EndBlock(p)|, CatchPos(p, code);
    PartSize(epi, EndPartReturning(p), n + 2, epi[n + 5]);
    hide EndPartReturning;
    assert |rw.Body| == c + |epi|;
    forall i: nat | i < |epi| ensures rw.Body[c..][i] == Epilogue(p, code)[i] {
      assert rw.Nodes[c + i] == epi[i];
      EndShape(p, code, i);
      if i == n + 2 || i == n + 4 {
        PartLeaves(epi, EndPartReturning(p), n + 2, epi[n + 5], i);
        assert rw.Nodes[c + (n + 5)] == epi[n + 5];
        BodyTarget(rw, c + i, EndFinallyPos(p, code));
      } else {
        PartNodes(epi, EndPartReturning(p), n + 2, epi[n + 5], i);
        BodyBits(rw, c + i, EndPartReturning(p)[i]);
      }
    }
  }

  lemma PartLeaves(nodes: seq<ILInstr>, part: Code, x: nat, target: ILInstr, i: nat)
    requires PartReady(nodes, part, x, target) && i < |nodes| && (i == x || i == x + 2)
    ensures LeavesTo(nodes[i], target)
  {
  }

  lemma PartNodes(nodes: seq<ILInstr>, part: Code, x: nat, target: ILInstr, i: nat)
    requires PartReady(nodes, part, x, target) && i < |nodes| && i != x && i != x + 2
    ensures |nodes| == |part| && NodeIs(nodes[i], part[i])
  {
  }

  lemma NodeInPlace(rw: ILRewriter, p: Plan, code: Code, pro: seq<ILInstr>, orig: seq<ILInstr>, epi: seq<ILInstr>,
    k: nat)
    requires rw.Valid() && Edited(p, code, rw.sentinel, pro, orig, epi, rw.Nodes) && k < |code|
    ensures |rw.Body| == TotalSize(p, code) && NodeRewritten(p, code, rw.Body, k)
  {
    hide ILRewriter.Valid, BeginBlock, BeginPart, EndBlock, Epilogue, CatchPos, EndPartReturning, PartReady,
      StoreLocal, EntryPos,
      NewPos;
    BodyOpcodes(rw);
    var q, n := NodePos(p, code, k), |EndBlock(p)|;
    assert OldNode(p, code, rw.sentinel, orig, epi[n + 6], rw.Nodes, k);
    if code[k].opcode == RET {
      assert rw.Nodes[CatchPos(p, code) + (n + 6)] == epi[n + 6];
      BodyTarget(rw, q, ReturnPos(p, code));
      if !p.isVoid {
        BodyBits(rw, q - 1, StoreLocal(ReturnLocal(p)));
      }
    } else {
      match code[k].operand {
        case Bits(w) => BodyBits(rw, q, code[k]);
        case Target(t) =>
          RingKept(rw, p, code, pro, orig, epi, t);
          BodyTarget(rw, q, NewPos(p, code, t));
      }
    }
  }

  /** The finished list is the rewriting of the old one. */
  lemma BodyRewritten(rw: ILRewriter, p: Plan, code: Code, pro: seq<ILInstr>, orig: seq<ILInstr>, epi: seq<ILInstr>)
    requires rw.Valid() && Edited(p, code, rw.sentinel, pro, orig, epi, rw.Nodes)
    ensures CodeRewritten(p, code, rw.Body)
  {
    hide ILRewriter.Valid, BeginBlock, EndBlock, Epilogue, Prologue, PartReady, NodeRewritten, OldNodes;
    NodeInPlace(rw, p, code, pro, orig, epi, 0);
    PrologueInPlace(rw, p, code, pro, orig, epi);
    EpilogueInPlace(rw, p, code, pro, orig, epi);
    RetCountGap(p, code, 0, |code|);
    forall k | 0 <= k < |code| ensures NodeRewritten(p, code, rw.Body, k) {
      NodeInPlace(rw, p, code, pro, orig, epi, k);
    }
  }
}
