/** The rewriter's stack-depth estimate bounds the depth at every instruction control can reach. */
module MaxStack {
  import opened OpCodes
  import opened OpcodeTable
  import opened ILCode
  import opened ILEditing
  import opened ILRewriterModel

  /** Instructions after which control does not fall through. */
  predicate EndsFlow(op: nat) {
    || op in {JMP, SWITCH, SWITCH_ARG}
    || (op < COUNT && (RowOf(op).flow.Branch? || RowOf(op).flow.Return? || RowOf(op).flow.Throw?))
  }

  /** Position t is one of the targets of the switch at i. */
  predicate SwitchesTo(code: Code, i: nat, t: nat)
    requires Exportable(code) && i < |code| && code[i].opcode == SWITCH
  {
    assert OperandOk(code, i);
    exists a :: i < a < |code| && a <= i + code[i].operand.w && code[a].operand == Target(t)
  }

  /** Control can pass from instruction i to instruction j (exceptions aside). */
  predicate Flows(code: Code, i: nat, j: nat)
    requires Exportable(code) && i < |code|
  {
    assert OperandOk(code, i);
    || (j == i + 1 && !EndsFlow(code[i].opcode))
    || (code[i].opcode != SWITCH_ARG && code[i].operand == Target(j))
    || (code[i].opcode == SWITCH && (j == i + 1 + code[i].operand.w || SwitchesTo(code, i, j)))
  }

  /**
   Every instruction has one entry depth, and executing it pops some of what is there and pushes no more than
   its row of the opcode table says.
   */
  ghost predicate OneDepthEach(code: Code, depth: seq<nat>)
    requires Exportable(code)
  {
    && |depth| == |code|
    && forall i, j :: 0 <= i < |code| && 0 <= j < |code| && Flows(code, i, j) ==>
         depth[j] <= depth[i] + MostPushed(code[i].opcode)
  }

  ghost predicate IsPath(code: Code, path: seq<nat>)
    requires Exportable(code)
  {
    && |path| > 0
    && (forall k :: 0 <= k < |path| ==> path[k] < |code|)
    && (forall k :: 0 < k < |path| ==> Flows(code, path[k - 1], path[k]))
  }

  /** Pushes of those of the first k instructions whose positions are in `seen`. */
  function PushesOf(code: Code, seen: set<nat>, k: nat): nat
    requires OpcodesOk(code) && k <= |code|
  {
    if k == 0 then 0
    else PushesOf(code, seen, k - 1) + if k - 1 in seen then Pushes(code[k - 1].opcode) else 0
  }

  lemma {:induction false} PushesOfGrow(code: Code, small: set<nat>, big: set<nat>, k: nat)
    requires OpcodesOk(code) && k <= |code| && small <= big
    ensures PushesOf(code, small, k) <= PushesOf(code, big, k)
  {
    hide Pushes;
    if k > 0 {
      PushesOfGrow(code, small, big, k - 1);
    }
  }

  lemma {:induction false} PushesOfAdded(code: Code, seen: set<nat>, x: nat, k: nat)
    requires OpcodesOk(code) && x < |code| && k <= |code| && x !in seen
    ensures PushesOf(code, seen + {x}, k) == PushesOf(code, seen, k) + if x < k then Pushes(code[x].opcode) else 0
  {
    hide Pushes;
    if k > 0 {
      PushesOfAdded(code, seen, x, k - 1);
    }
  }

  lemma {:induction false} PushesOfAll(code: Code, seen: set<nat>, k: nat)
    requires OpcodesOk(code) && k <= |code|
    ensures PushesOf(code, seen, k) <= PushSum(code[..k])
  {
    hide Pushes;
    if k > 0 {
      PushesOfAll(code, seen, k - 1);
      assert code[..k][..k - 1] == code[..k - 1];
    }
  }

  function Visited(path: seq<nat>): set<nat> {
    set x | x in path
  }

  /** The first visit to x on a path. */
  lemma {:induction false} FirstVisit(path: seq<nat>, x: nat) returns (m: nat)
    requires x in path
    ensures m < |path| && path[m] == x && x !in path[..m]
  {
    if path[0] == x {
      m := 0;
    } else {
      var rest := FirstVisit(path[1..], x);
      m := rest + 1;
      assert path[..m] == [path[0]] + path[1..][..rest];
    }
  }

  /** Leaving the last node of a path, the depth is paid for by the distinct nodes on it, each counted once. */
  lemma {:induction false} DepthPaid(code: Code, depth: seq<nat>, path: seq<nat>, base: nat)
    requires Exportable(code) && OneDepthEach(code, depth) && IsPath(code, path)
    requires depth[path[0]] <= base
    ensures var last := path[|path| - 1];
            depth[last] + MostPushed(code[last].opcode) <= base + PushesOf(code, Visited(path), |code|)
    decreases |path|
  {
    hide Pushes, Flows, MostPushed;
    var last := path[|path| - 1];
    PushesAreMost(code[last].opcode);
    var m := FirstVisit(path, last);
    var before := path[..m];
    if m > 0 {
      DepthPaid(code, depth, before, base);
      assert Flows(code, path[m - 1], path[m]);
      PushesAreMost(code[path[m - 1]].opcode);
      assert depth[last] <= base + PushesOf(code, Visited(before), |code|);
    }
    PushesOfAdded(code, Visited(before), last, |code|);
    PushesOfGrow(code, Visited(before) + {last}, Visited(path), |code|);
  }

  /**
   At every instruction reachable from a root (the entry, or a handler's first instruction) the depth before it,
   and the depth with everything it pushes, is at most the depth at the root plus all pushes of the list.
   */
  lemma DepthBounded(code: Code, depth: seq<nat>, path: seq<nat>, base: nat)
    requires Exportable(code) && OneDepthEach(code, depth) && IsPath(code, path)
    requires depth[path[0]] <= base
    ensures var last := path[|path| - 1];
            depth[last] + MostPushed(code[last].opcode) <= base + PushSum(code)
  {
    hide Pushes, Flows, MostPushed;
    DepthPaid(code, depth, path, base);
    PushesOfAll(code, Visited(path), |code|);
    assert code[..|code|] == code;
  }

  /**
   After an import and any insertions, the depth the exporter declares covers every instruction reachable from
   a root whose own depth the imported header covered.
   */
  lemma DeclaredDepthSuffices(r: ILRewriter, depth: seq<nat>, path: seq<nat>)
    requires r.Valid() && Exportable(r.Body) && OneDepthEach(r.Body, depth) && IsPath(r.Body, path)
    requires depth[path[0]] <= r.HeaderStack
    ensures var last := path[|path| - 1];
            depth[last] + MostPushed(r.Body[last].opcode) <= r.maxStack
  {
    hide Pushes, Flows, MostPushed;
    DepthBounded(r.Body, depth, path, r.HeaderStack);
  }
}
