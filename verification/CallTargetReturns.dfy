/** Turning the returns of a list into leaves, in one walk over the ring. */
module CallTargetReturns {
  import opened OpCodes
  import opened ILCode
  import opened ILRewriterModel
  import opened ILRewriterWrapperModel
  import opened CallTargetCode

  /** The list after a return at q got its store: in a void method nothing is inserted. */
  ghost predicate StoreInserted(p: Plan, before: seq<ILInstr>, after: seq<ILInstr>, q: nat)
    requires q <= |before|
    reads after
  {
    if p.isVoid then after == before
    else |after| == |before| + 1 && after == Spliced(before, q, after[q])
              && NodeIs(after[q], StoreLocal(ReturnLocal(p)))
  }

  /** One return: its value is stored, and it leaves to `target`. */
  method ReturnBecomesLeave(w: ILRewriterWrapper, p: Plan, instr: ILInstr, target: ILInstr, ghost q: nat)
    requires w.rewriter.Valid() && q < |w.rewriter.Nodes| && instr == w.rewriter.Nodes[q] && instr.opcode == RET
    requires target in w.rewriter.Nodes
    modifies w, instr`opcode, instr`operand
    modifies w.rewriter`Nodes, w.rewriter`Body, w.rewriter`Anchors, w.rewriter`maxStack, w.rewriter`instrCount
    modifies w.rewriter.sentinel`next, w.rewriter.sentinel`prev, w.rewriter.Nodes`next, w.rewriter.Nodes`prev
    ensures w.rewriter.Valid()
    ensures StoreInserted(p, old(w.rewriter.Nodes), w.rewriter.Nodes, q)
    ensures !p.isVoid ==> fresh(w.rewriter.Nodes[q])
    ensures instr.opcode == LEAVE_S && instr.operand == Branch(target)
  {
    hide ILRewriter.Ring, Mirrors, ClausesAre, StoreLocal;
    ghost var at := q;
    ghost var nodes := w.rewriter.Nodes;
    if !p.isVoid {
      w.SetILPosition(instr, q);
      var store := w.StLocal(ReturnLocal(p));
      assert w.rewriter.Nodes == Spliced(nodes, q, store);
      assert NodeIs(w.Emitted[0], w.Instrs[0]);
      at := q + 1;
    }
    ghost var i :| 0 <= i < |nodes| && nodes[i] == target;
    ghost var t := if p.isVoid || i < q then i else i + 1;
    assert w.rewriter.Nodes[t] == target;
    w.rewriter.ReturnToLeave(instr, target, at, t);
  }

  /** Stores inserted once the first j nodes have been visited; the last node is the final return. */
  function Stores(p: Plan, code: Code, j: nat): nat
    requires 0 < |code| && j <= |code|
  {
    RetCount(p, code, if j == |code| then j - 1 else j)
  }

  predicate IsOldReturn(code: Code, k: nat)
    requires k < |code|
  {
    k < |code| - 1 && code[k].opcode == RET
  }

  /** Where node k is once it has been visited. */
  function Place(p: Plan, code: Code, k: nat): nat
    requires k < |code|
  {
    k + Stores(p, code, k) + if !p.isVoid && IsOldReturn(code, k) then 1 else 0
  }

  lemma PlaceBefore(p: Plan, code: Code, k: nat, j: nat)
    requires k < j <= |code|
    ensures Place(p, code, k) < j + Stores(p, code, j)
    ensures Place(p, code, k) + 1 == k + 1 + Stores(p, code, k + 1)
  {
    RetCountGap(p, code, k, if j == |code| then j - 1 else j);
    if k + 1 < |code| {
      RetCountGap(p, code, k + 1, if j == |code| then j - 1 else j);
    }
  }

  /** Node k of the list `L` with code `code` and operands `was`, when visited (`done`) or not. */
  ghost predicate Visited(p: Plan, code: Code, L: seq<ILInstr>, was: seq<Payload>, nodes: seq<ILInstr>,
                          target: ILInstr, k: nat)
    requires k < |L| == |code| == |was|
    reads L, nodes
  {
    && Place(p, code, k) < |nodes| && nodes[Place(p, code, k)] == L[k]
    && (if IsOldReturn(code, k) then
          L[k].opcode == LEAVE_S && L[k].operand == Branch(target)
          && (!p.isVoid ==> NodeIs(nodes[Place(p, code, k) - 1], StoreLocal(ReturnLocal(p))))
        else L[k].opcode == code[k].opcode && L[k].operand == was[k])
  }

  ghost predicate Waiting(p: Plan, code: Code, L: seq<ILInstr>, was: seq<Payload>, nodes: seq<ILInstr>, j: nat, k: nat)
    requires j <= k < |L| == |code| == |was|
    reads L
  {
    && k + Stores(p, code, j) < |nodes| && nodes[k + Stores(p, code, j)] == L[k]
    && L[k].opcode == code[k].opcode && L[k].operand == was[k]
  }

  /** The loop over all nodes, after j of them. */
  ghost predicate ReturnsDone(p: Plan, code: Code, L: seq<ILInstr>, was: seq<Payload>, nodes: seq<ILInstr>,
                              target: ILInstr, j: nat)
    requires j <= |L| == |code| == |was| && |L| > 0
    reads L, nodes
  {
    && |nodes| == |L| + Stores(p, code, j)
    && (forall k :: 0 <= k < j ==> Visited(p, code, L, was, nodes, target, k))
    && (forall k :: j <= k < |L| ==> Waiting(p, code, L, was, nodes, j, k))
  }

  lemma StillAt(p: Plan, before: seq<ILInstr>, after: seq<ILInstr>, q: nat, i: nat)
    requires q < |before| && i < |before| && StoreInserted(p, before, after, q)
    ensures i < q ==> i < |after| && after[i] == before[i]
    ensures i >= q ==> i + (if p.isVoid then 0 else 1) < |after| && after[i + if p.isVoid then 0 else 1] == before[i]
  {
  }

  lemma StoresNext(p: Plan, code: Code, j: nat)
    requires j < |code|
    ensures Stores(p, code, j + 1) == Stores(p, code, j) + if !p.isVoid && IsOldReturn(code, j) then 1 else 0
  {
  }

  /** Visiting a node that stays as it is. */
  lemma NothingToDo(p: Plan, code: Code, L: seq<ILInstr>, was: seq<Payload>, nodes: seq<ILInstr>, target: ILInstr,
    j: nat)
    requires j < |L| == |code| == |was| && ReturnsDone(p, code, L, was, nodes, target, j) && !IsOldReturn(code, j)
    ensures ReturnsDone(p, code, L, was, nodes, target, j + 1)
  {
    hide Stores, Visited;
    StoresNext(p, code, j);
    assert Waiting(p, code, L, was, nodes, j, j);
    assert Visited(p, code, L, was, nodes, target, j) by { VisitedAsIs(p, code, L, was, nodes, target, j); }
    var next := j + 1;
    forall k | next <= k < |L| ensures Waiting(p, code, L, was, nodes, next, k) {
      assert Waiting(p, code, L, was, nodes, j, k);
    }
  }

  lemma VisitedAsIs(p: Plan, code: Code, L: seq<ILInstr>, was: seq<Payload>, nodes: seq<ILInstr>, target: ILInstr,
    j: nat)
    requires j < |L| == |code| == |was| && Waiting(p, code, L, was, nodes, j, j) && !IsOldReturn(code, j)
    ensures Visited(p, code, L, was, nodes, target, j)
  {
    hide Stores;
  }

  method VisitReturn(w: ILRewriterWrapper, p: Plan, instr: ILInstr, target: ILInstr, ghost code: Code,
                     ghost was: seq<Payload>, ghost L: seq<ILInstr>, ghost j: nat)
    requires w.rewriter.Valid() && target in w.rewriter.Nodes
    requires j < |L| == |code| == |was| && IsOldReturn(code, j)
    requires ReturnsDone(p, code, L, was, w.rewriter.Nodes, target, j)
    requires instr == L[j] && instr.opcode == RET && forall k :: 0 <= k < |L| && k != j ==> L[k] != instr
    modifies w, instr`opcode, instr`operand
    modifies w.rewriter`Nodes, w.rewriter`Body, w.rewriter`Anchors, w.rewriter`maxStack, w.rewriter`instrCount
    modifies w.rewriter.sentinel`next, w.rewriter.sentinel`prev, w.rewriter.Nodes`next, w.rewriter.Nodes`prev
    ensures w.rewriter.Valid()
    ensures forall i :: 0 <= i < |w.rewriter.Nodes| ==>
              w.rewriter.Nodes[i] in old(w.rewriter.Nodes) || fresh(w.rewriter.Nodes[i])
    ensures ReturnsDone(p, code, L, was, w.rewriter.Nodes, target, j + 1)
    ensures target in w.rewriter.Nodes
  {
    hide ILRewriter.Ring, Mirrors, ClausesAre, StoreLocal, Stores, StoreInserted, Place;
    ghost var nodes := w.rewriter.Nodes;
    ghost var q := j + Stores(p, code, j);
    assert Waiting(p, code, L, was, nodes, j, j);
    StoresNext(p, code, j);
    RingDistinct(w.rewriter, q);
    label before:
    ReturnBecomesLeave(w, p, instr, target, q);
    ghost var after := w.rewriter.Nodes;
    forall k | 0 <= k < j ensures Visited(p, code, L, was, after, target, k) {
      assert old@before(Visited(p, code, L, was, nodes, target, k));
      PlaceBefore(p, code, k, j);
      var at := Place(p, code, k);
      StillAt(p, nodes, after, q, at);
      if !p.isVoid && IsOldReturn(code, k) {
        PlacePositive(p, code, k);
        StillAt(p, nodes, after, q, at - 1);
      }
    }
    ghost var next := j + 1;
    forall k | next <= k < |L| ensures Waiting(p, code, L, was, after, next, k) {
      assert old@before(Waiting(p, code, L, was, nodes, j, k));
      StillAt(p, nodes, after, q, k + Stores(p, code, j));
    }
    StillAt(p, nodes, after, q, q);
    PlaceOfReturn(p, code, j);
    if !p.isVoid {
      StoreThere(p, nodes, after, q);
    }
    assert Visited(p, code, L, was, after, target, j);
    assert |after| == |L| + Stores(p, code, next) by { InsertedSize(p, nodes, after, q); }
    TargetStays(p, nodes, after, q, target);
    NodesOldOrNew(p, nodes, after, q);
  }

  lemma InsertedSize(p: Plan, before: seq<ILInstr>, after: seq<ILInstr>, q: nat)
    requires q < |before| && StoreInserted(p, before, after, q)
    ensures |after| == |before| + if p.isVoid then 0 else 1
  {
  }

  lemma NodesOldOrNew(p: Plan, before: seq<ILInstr>, after: seq<ILInstr>, q: nat)
    requires q < |before| && StoreInserted(p, before, after, q)
    ensures forall i :: 0 <= i < |after| ==> after[i] in before || (!p.isVoid && i == q)
  {
  }

  lemma TargetStays(p: Plan, before: seq<ILInstr>, after: seq<ILInstr>, q: nat, target: ILInstr)
    requires q < |before| && StoreInserted(p, before, after, q) && target in before
    ensures target in after
  {
    var i :| 0 <= i < |before| && before[i] == target;
    StillAt(p, before, after, q, i);
  }

  lemma StoreThere(p: Plan, before: seq<ILInstr>, after: seq<ILInstr>, q: nat)
    requires q < |before| && StoreInserted(p, before, after, q) && !p.isVoid
    ensures |after| == |before| + 1 && NodeIs(after[q], StoreLocal(ReturnLocal(p)))
  {
  }

  lemma PlacePositive(p: Plan, code: Code, k: nat)
    requires k < |code| && !p.isVoid && IsOldReturn(code, k)
    ensures Place(p, code, k) > 0
  {
  }

  lemma PlaceOfReturn(p: Plan, code: Code, j: nat)
    requires j < |code| && IsOldReturn(code, j)
    ensures Place(p, code, j) == j + Stores(p, code, j) + if p.isVoid then 0 else 1
  {
  }

  lemma RingDistinct(rw: ILRewriter, q: nat)
    requires rw.Valid() && q < |rw.Nodes|
    ensures forall i :: 0 <= i < |rw.Nodes| && i != q ==> rw.Nodes[i] != rw.Nodes[q]
  {
  }

  /** All returns but the last become leaves. */
  method ReturnsToLeaves(w: ILRewriterWrapper, p: Plan, last: ILInstr, target: ILInstr, ghost code: Code,
                         ghost was: seq<Payload>)
    requires w.rewriter.Valid() && target in w.rewriter.Nodes && |w.rewriter.Nodes| > 0
    requires last == w.rewriter.Nodes[|w.rewriter.Nodes| - 1]
    requires |code| == |was| == |w.rewriter.Nodes|
    requires forall k :: 0 <= k < |code| ==>
               w.rewriter.Nodes[k].opcode == code[k].opcode && w.rewriter.Nodes[k].operand == was[k]
    modifies w, w.rewriter.Nodes`opcode, w.rewriter.Nodes`operand
    modifies w.rewriter`Nodes, w.rewriter`Body, w.rewriter`Anchors, w.rewriter`maxStack, w.rewriter`instrCount
    modifies w.rewriter.sentinel`next, w.rewriter.sentinel`prev, w.rewriter.Nodes`next, w.rewriter.Nodes`prev
    ensures w.rewriter.Valid()
    ensures forall i :: 0 <= i < |w.rewriter.Nodes| ==>
              w.rewriter.Nodes[i] in old(w.rewriter.Nodes) || fresh(w.rewriter.Nodes[i])
    ensures ReturnsDone(p, code, old(w.rewriter.Nodes), was, w.rewriter.Nodes, target, |code|)
  {
    hide ILRewriter.Ring, Mirrors, ClausesAre, StoreLocal, Stores, StoreInserted, Visited;
    ghost var L := w.rewriter.Nodes;
    ghost var j := 0;
    AllDistinct(w.rewriter);
    FirstNode(w.rewriter);
    NothingDone(p, code, L, was, target);
    var instr := w.rewriter.sentinel.next;
    while instr != w.rewriter.sentinel
      invariant w.rewriter.Valid() && 0 <= j <= |L| && target in w.rewriter.Nodes
      invariant forall i :: 0 <= i < |w.rewriter.Nodes| ==> w.rewriter.Nodes[i] in L || fresh(w.rewriter.Nodes[i])
      invariant ReturnsDone(p, code, L, was, w.rewriter.Nodes, target, j)
      invariant instr == w.rewriter.At(j + Stores(p, code, j))
      decreases |L| - j
    {
      assert Waiting(p, code, L, was, w.rewriter.Nodes, j, j);
      if instr.opcode == RET && instr != last {
        VisitReturn(w, p, instr, target, code, was, L, j);
      } else {
        NothingToDo(p, code, L, was, w.rewriter.Nodes, target, j);
      }
      PlaceBefore(p, code, j, j + 1);
      assert Visited(p, code, L, was, w.rewriter.Nodes, target, j);
      VisitedAt(p, code, L, was, w.rewriter.Nodes, target, j);
      NextNode(w.rewriter, Place(p, code, j));
      instr := instr.next;
      j := j + 1;
    }
    OnlyEndIsSentinel(w.rewriter, j + Stores(p, code, j));
  }

  lemma OnlyEndIsSentinel(rw: ILRewriter, i: nat)
    requires rw.Valid() && i <= |rw.Nodes| && rw.At(i) == rw.sentinel
    ensures i == |rw.Nodes|
  {
  }

  lemma VisitedAt(p: Plan, code: Code, L: seq<ILInstr>, was: seq<Payload>, nodes: seq<ILInstr>, target: ILInstr, k: nat)
    requires k < |L| == |code| == |was| && Visited(p, code, L, was, nodes, target, k)
    ensures Place(p, code, k) < |nodes| && nodes[Place(p, code, k)] == L[k]
  {
  }

  lemma NothingDone(p: Plan, code: Code, L: seq<ILInstr>, was: seq<Payload>, target: ILInstr)
    requires |L| == |code| == |was| && |L| > 0
    requires forall k :: 0 <= k < |code| ==> L[k].opcode == code[k].opcode && L[k].operand == was[k]
    ensures ReturnsDone(p, code, L, was, L, target, 0)
  {
    assert Stores(p, code, 0) == 0;
    hide Stores;
    forall k | 0 <= k < |L| ensures Waiting(p, code, L, was, L, 0, k) {
    }
  }

  lemma AllDistinct(rw: ILRewriter)
    requires rw.Valid()
    ensures forall i, j :: 0 <= i < j < |rw.Nodes| ==> rw.Nodes[i] != rw.Nodes[j]
  {
  }

  lemma FirstNode(rw: ILRewriter)
    requires rw.Valid()
    ensures rw.sentinel.next == rw.At(0)
  {
    assert rw.LinkedAt(-1);
  }

  lemma NextNode(rw: ILRewriter, k: nat)
    requires rw.Valid() && k < |rw.Nodes|
    ensures rw.Nodes[k].next == rw.At(k + 1)
  {
    assert rw.LinkedAt(k);
  }
}
