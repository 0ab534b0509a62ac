/** The callback as a whole: import, rewrite, replace the clauses, export. */
module CallTargetCallback {
  import opened Bytes
  import opened OpCodes
  import opened ILCode
  import opened ILEditing
  import opened Relaxation
  import opened ILFormat
  import opened ExceptionTable
  import opened ILRewriterModel
  import opened ILRewriterWrapperModel
  import opened CallTargetCode
  import opened CallTargetEmission
  import opened CallTargetReturns
  import opened CallTargetEncoding
  import opened CallTargetRewriter
  import LocalSignature
  import SignatureTrees

  /** The four clauses the callback appends, given the nodes it kept. */
  function AddedClauses(p: Plan, b: BeginNodes, e: EndNodes, afterRethrow: ILInstr): seq<Clause<ILInstr>> {
    [Clause(CLAUSE_NONE, b.first, b.handler, b.handler, b.catchLeave, ClassToken(p.tokens.exceptionType)),
     Clause(CLAUSE_NONE, e.tryStart, e.handler, e.handler, e.catchLeave, ClassToken(p.tokens.exceptionType)),
     Clause(CLAUSE_NONE, b.first, e.startCatch, e.startCatch, e.rethrow, ClassToken(p.tokens.exceptionType)),
     Clause(CLAUSE_FINALLY, b.first, afterRethrow, afterRethrow, e.endFinally, ClassToken(0))]
  }

  /** A node of the prologue or the epilogue in the finished list. */
  lemma PartNodeAt(rw: ILRewriter, p: Plan, code: Code, pro: seq<ILInstr>, orig: seq<ILInstr>, epi: seq<ILInstr>,
    i: nat)
    requires Edited(p, code, rw.sentinel, pro, orig, epi, rw.Nodes)
    ensures i < |pro| ==> i < |rw.Nodes| && rw.At(i) == pro[i]
    ensures i < |epi| ==> CatchPos(p, code) + i < |rw.Nodes| && rw.At(CatchPos(p, code) + i) == epi[i]
  {
    hide PartReady, BeginPart, EndPart, BeginBlock, EndBlock, CatchPos, TotalSize, OldNodes;
    if i < |pro| {
      assert rw.Nodes[0 + i] == pro[i];
    }
  }

  lemma AddedClausesAre(rw: ILRewriter, p: Plan, code: Code, pro: seq<ILInstr>, orig: seq<ILInstr>,
                        epi: seq<ILInstr>, b: BeginNodes, e: EndNodes)
    requires Edited(p, code, rw.sentinel, pro, orig, epi, rw.Nodes)
    requires BeginNodesAre(b, pro, |BeginBlock(p)|) && EndNodesAre(e, epi, |EndBlock(p)|)
    ensures var cs := AddedClauses(p, b, e, e.tryStart);
            && ClauseIs(rw.Nodes, rw.sentinel, cs[0], BeginClause(p, code))
            && ClauseIs(rw.Nodes, rw.sentinel, cs[1], EndClause(p, code))
            && ClauseIs(rw.Nodes, rw.sentinel, cs[2], CatchClause(p, code))
            && ClauseIs(rw.Nodes, rw.sentinel, cs[3], FinallyClause(p, code))
  {
    hide Edited, BeginBlock, EndBlock, CatchPos;
    var m, n := |BeginBlock(p)|, |EndBlock(p)|;
    PartNodeAt(rw, p, code, pro, orig, epi, 0);
    PartNodeAt(rw, p, code, pro, orig, epi, 1);
    PartNodeAt(rw, p, code, pro, orig, epi, 2);
    PartNodeAt(rw, p, code, pro, orig, epi, m + 1);
    PartNodeAt(rw, p, code, pro, orig, epi, m + 2);
    PartNodeAt(rw, p, code, pro, orig, epi, n + 3);
    PartNodeAt(rw, p, code, pro, orig, epi, n + 4);
    PartNodeAt(rw, p, code, pro, orig, epi, n + 5);
  }

  /** The nodes of an original clause are now at the positions of the moved clause. */
  lemma OldClauseIs(rw: ILRewriter, p: Plan, code: Code, pro: seq<ILInstr>, orig: seq<ILInstr>,
                    epi: seq<ILInstr>, c: Clause<ILInstr>, pos: Clause<int>)
    requires Edited(p, code, rw.sentinel, pro, orig, epi, rw.Nodes) && |orig| == |code|
    requires ClauseIs(orig, rw.sentinel, c, pos)
    ensures ClauseIs(rw.Nodes, rw.sentinel, c, NewClause(p, code, pos))
  {
    hide Edited, NewPos;
    RingKept(rw, p, code, pro, orig, epi, pos.tryBegin);
    RingKept(rw, p, code, pro, orig, epi, pos.tryEnd);
    RingKept(rw, p, code, pro, orig, epi, pos.handlerBegin);
    if pos.handlerEnd >= 0 {
      RingKept(rw, p, code, pro, orig, epi, pos.handlerEnd);
      OldNodeInside(rw, p, code, pro, orig, epi, pos.handlerEnd);
    }
    if pos.extra.Filter? {
      RingKept(rw, p, code, pro, orig, epi, pos.extra.start);
    }
  }

  lemma OldNodeInside(rw: ILRewriter, p: Plan, code: Code, pro: seq<ILInstr>, orig: seq<ILInstr>,
                      epi: seq<ILInstr>, k: nat)
    requires Edited(p, code, rw.sentinel, pro, orig, epi, rw.Nodes) && k < |code|
    ensures NewPos(p, code, k) < |rw.Nodes|
  {
    hide PartReady, PartAt, NodePos, TotalSize;
    assert OldNode(p, code, rw.sentinel, orig, epi[|EndBlock(p)| + 6], rw.Nodes, k);
  }

  /** The whole new table. */
  lemma ClausesRewritten(rw: ILRewriter, p: Plan, code: Code, pro: seq<ILInstr>, orig: seq<ILInstr>,
                         epi: seq<ILInstr>, b: BeginNodes, e: EndNodes, cs: seq<Clause<ILInstr>>, ps: seq<Clause<int>>)
    requires Edited(p, code, rw.sentinel, pro, orig, epi, rw.Nodes) && |orig| == |code|
    requires BeginNodesAre(b, pro, |BeginBlock(p)|) && EndNodesAre(e, epi, |EndBlock(p)|)
    requires ClausesAre(orig, rw.sentinel, cs, ps)
    ensures forall i :: 0 <= i < |ps| ==> InList(ps[i], |code|)
    ensures ClausesAre(rw.Nodes, rw.sentinel, cs + AddedClauses(p, b, e, e.tryStart), NewClauses(p, code, ps))
  {
    hide Edited, BeginBlock, EndBlock, ClauseIs, NewClause, BeginNodesAre, EndNodesAre, BeginClause, EndClause,
      CatchClause, FinallyClause;
    forall i | 0 <= i < |ps| ensures InList(ps[i], |code|) {
      assert ClauseIs(orig, rw.sentinel, cs[i], ps[i]);
      AnchorsInList(orig, rw.sentinel, cs[i], ps[i]);
    }
    AddedClausesAre(rw, p, code, pro, orig, epi, b, e);
    var all, pos := cs + AddedClauses(p, b, e, e.tryStart), NewClauses(p, code, ps);
    forall i | 0 <= i < |all| ensures ClauseIs(rw.Nodes, rw.sentinel, all[i], pos[i]) {
      if i < |cs| {
        assert ClauseIs(orig, rw.sentinel, cs[i], ps[i]);
        OldClauseIs(rw, p, code, pro, orig, epi, cs[i], ps[i]);
      }
    }
  }

  lemma AnchorsInList(nodes: seq<ILInstr>, sentinel: ILInstr, c: Clause<ILInstr>, pos: Clause<int>)
    requires ClauseIs(nodes, sentinel, c, pos)
    ensures InList(pos, |nodes|)
  {
  }

  // ---- the edit

  /** Builds the new list: prologue, body, epilogue, and returns turned into leaves. */
  method EditNodes(rw: ILRewriter, c: Caller, p: Plan)
    returns (ok: bool, b: BeginNodes, e: EndNodes, ghost pro: seq<ILInstr>, ghost epi: seq<ILInstr>)
    requires rw.Valid() && |rw.Body| > 0 && p == PlanOf(c, p.localCount, p.tokens)
    modifies rw`Nodes, rw`Body, rw`Anchors, rw`maxStack, rw`instrCount
    modifies rw.sentinel`next, rw.sentinel`prev, rw.Nodes`next, rw.Nodes`prev, rw.Nodes`opcode, rw.Nodes`operand
    ensures rw.Valid() && ok == Instrumentable(c)
    ensures forall i :: 0 <= i < |rw.Nodes| ==> rw.Nodes[i] in old(rw.Nodes) || fresh(rw.Nodes[i])
    ensures ok ==> Edited(p, old(rw.Body), rw.sentinel, pro, old(rw.Nodes), epi, rw.Nodes)
                   && BeginNodesAre(b, pro, |BeginBlock(p)|) && EndNodesAre(e, epi, |EndBlock(p)|)
  {
    hide ILRewriter.Valid, ILRewriter.Ring, Mirrors, BeginBlock, EndBlock, BeginPart, EndPart, PartReady, PlanOf,
      Edited, ReceiverLoads, ArgumentLoads, EndPartReturning, EndNodesAre, BeginNodesAre;
    ghost var code, orig := rw.Body, rw.Nodes;
    MirrorsNow(rw);
    FirstNode(rw);
    var w := new ILRewriterWrapper(rw, rw.sentinel.next, 0);
    ok, b := InsertPrologue(w, c, p);
    pro, epi := w.Emitted, [];
    if !ok {
      e := EndNodes(w.cursor, w.cursor, w.cursor, w.cursor, w.cursor, w.cursor, w.cursor);
      return;
    }
    ghost var middle := rw.Nodes;
    assert middle == pro + orig;
    var ret;
    ok, e, ret, epi := InsertEpilogue(w, c, p);
    assert rw.Nodes == pro + orig + epi;
    EpilogueSize(p, e, epi);
    EditReturns(w, p, e, ret, code, pro, orig, epi);
  }

  lemma MirrorsNow(rw: ILRewriter)
    requires rw.Valid()
    ensures Mirrors(rw.Nodes, rw.sentinel, rw.Body) && |rw.Nodes| == |rw.Body| && OpcodesOk(rw.Body)
  {
  }

  lemma EpilogueSize(p: Plan, e: EndNodes, epi: seq<ILInstr>)
    requires PartReady(epi, EndPartReturning(p), |EndBlock(p)| + 2, e.endFinally) && EndNodesAre(e, epi, |EndBlock(p)|)
    ensures |epi| >= |EndBlock(p)| + 7 && e.endFinally == epi[|EndBlock(p)| + 5]
  {
    hide EndBlock;
    EndPartAt(p);
  }

  /**
   The rewriting of an imported list, in place: it succeeds exactly for instrumentable methods, and then the list
   is the rewriting of the old list and the clauses are the old ones, moved, with the four new ones.
   */
  method RewriteList(rw: ILRewriter, c: Caller, p: Plan) returns (ok: bool)
    requires rw.Valid() && |rw.Body| > 0 && p == PlanOf(c, p.localCount, p.tokens)
    modifies rw`Nodes, rw`Body, rw`Anchors, rw`maxStack, rw`instrCount, rw`clauses
    modifies rw.sentinel`next, rw.sentinel`prev, rw.Nodes`next, rw.Nodes`prev, rw.Nodes`opcode, rw.Nodes`operand
    ensures rw.Valid() && ok == Instrumentable(c)
    ensures forall i :: 0 <= i < |rw.Nodes| ==> rw.Nodes[i] in old(rw.Nodes) || fresh(rw.Nodes[i])
    ensures forall i :: 0 <= i < |old(rw.Anchors)| ==> InList(old(rw.Anchors)[i], |old(rw.Body)|)
    ensures ok ==> CodeRewritten(p, old(rw.Body), rw.Body)
                   && rw.Anchors == NewClauses(p, old(rw.Body), old(rw.Anchors))
  {
    hide ILRewriter.Valid, ILRewriter.Ring, Mirrors, BeginBlock, EndBlock, BeginPart, EndPart, PartReady, PlanOf,
      Edited, ReceiverLoads, ArgumentLoads, EndPartReturning, CodeRewritten, ClausesAre, InList;
    ghost var code, orig, ps := rw.Body, rw.Nodes, rw.Anchors;
    ghost var cs := rw.clauses;
    ClausesNow(rw);
    var b, e;
    ghost var pro, epi;
    ok, b, e, pro, epi := EditNodes(rw, c, p);
    if !ok {
      return;
    }
    BodyRewritten(rw, p, code, pro, orig, epi);
    ClausesRewritten(rw, p, code, pro, orig, epi, b, e, cs, ps);
    AfterRethrow(rw, p, code, pro, orig, epi, e);
    var all := rw.clauses + AddedClauses(p, b, e, e.rethrow.next);
    rw.SetEHClause(all, NewClauses(p, code, ps));
  }

  lemma ClausesNow(rw: ILRewriter)
    requires rw.Valid()
    ensures ClausesAre(rw.Nodes, rw.sentinel, rw.clauses, rw.Anchors) && |rw.Nodes| == |rw.Body|
    ensures forall i :: 0 <= i < |rw.Anchors| ==> InList(rw.Anchors[i], |rw.Body|)
  {
    hide ILRewriter.Ring, Mirrors;
    forall i | 0 <= i < |rw.Anchors| ensures InList(rw.Anchors[i], |rw.Body|) {
      assert ClauseIs(rw.Nodes, rw.sentinel, rw.clauses[i], rw.Anchors[i]);
    }
  }

  lemma AfterRethrow(rw: ILRewriter, p: Plan, code: Code, pro: seq<ILInstr>, orig: seq<ILInstr>,
                     epi: seq<ILInstr>, e: EndNodes)
    requires rw.Valid() && Edited(p, code, rw.sentinel, pro, orig, epi, rw.Nodes) && EndNodesAre(e, epi, |EndBlock(p)|)
    ensures e.rethrow.next == e.tryStart
  {
    hide ILRewriter.Valid, Edited, EndBlock, CatchPos;
    PartNodeAt(rw, p, code, pro, orig, epi, 1);
    PartNodeAt(rw, p, code, pro, orig, epi, 2);
    NextNode(rw, CatchPos(p, code) + 1);
  }

  // ---- the callback

  /** Undefined: the step on the local signature failed, which the callback ignores. */
  datatype CallbackResult =
    | Rewritten(body: MethodBody, localSig: seq<byte>)
    | Skipped
    | Undefined

  /** The local signature of a method, the return type, and the tokens of Exception and CallTargetState, encoded. */
  datatype Locals = Locals(
    sig: seq<byte>, ret: LocalSignature.Return, exc: LocalSignature.EncodedToken, state: LocalSignature.EncodedToken)

  /** What the metadata interface hands out: a readable signature, and a return type if there is one. */
  predicate LocalsReadable(c: Caller, l: Locals) {
    LocalSignature.SigReadable(l.sig) && |l.sig| < TWO_32 && l.ret.Void? == c.isVoid
  }

  /** The signature can be extended without leaving it or the buffer. */
  predicate StaysInside(l: Locals)
    requires LocalSignature.SigReadable(l.sig)
  {
    && (l.sig != [] ==> |l.sig| >= |LocalSignature.TokenBytes(l.state)|)
    && ((l.sig != [] ==> !LocalSignature.AlreadyModified(l.sig, l.state)) ==>
         && LocalSignature.NewCount(l.sig, l.ret) < 0x2000_0000
         && |LocalSignature.Extended(l.sig, l.ret, l.exc, l.state)| <= LocalSignature.BUFFER_SIZE)
  }

  predicate ExtendedBefore(l: Locals) {
    l.sig != [] && LocalSignature.AlreadyModified(l.sig, l.state)
  }

  /** The plan of a method: its own locals come first. */
  function CallbackPlan(c: Caller, l: Locals, tokens: Tokens): (p: Plan)
    requires LocalSignature.SigReadable(l.sig)
  {
    PlanOf(c, LocalSignature.OldCount(l.sig), tokens)
  }

  /**
   The locals the injected instructions use are the ones the new signature adds: under any grammar that reads the
   old locals and the added ones, each has its type there.
   */
  lemma InjectedLocalsTyped(read: seq<byte> -> SignatureTrees.Parsed<seq<byte>>, c: Caller, l: Locals, tokens: Tokens)
    requires LocalsReadable(c, l) && LocalSignature.NewCount(l.sig, l.ret) < 0x2000_0000
    requires LocalSignature.Reader(read) && LocalSignature.DecodeLocals(read, l.sig).Got?
    requires LocalSignature.AllRead(read, LocalSignature.AddedLocals(l.ret, l.exc, l.state))
    ensures var e := LocalSignature.Extended(l.sig, l.ret, l.exc, l.state);
            LocalSignature.SigReadable(e) && LocalSignature.DecodeLocals(read, e).Got?
    ensures var p := CallbackPlan(c, l, tokens);
            var e := LocalSignature.Extended(l.sig, l.ret, l.exc, l.state);
            var locals := LocalSignature.DecodeLocals(read, e).value;
            && |locals| == p.localCount + SlotCount(p)
            && locals[StateLocal(p)] == LocalSignature.ValueTypeLocal(l.state)
            && locals[ExceptionLocal(p)] == LocalSignature.ClassLocal(l.exc)
            && (if p.isVoid then locals[ReturnStateLocal(p)] == LocalSignature.ValueTypeLocal(l.ret.token)
                else locals[ReturnStateLocal(p)] == l.ret.spec && locals[ReturnLocal(p)] == l.ret.signature)
  {
    hide LocalSignature.Reader, LocalSignature.AllRead, LocalSignature.Extended, LocalSignature.ClassLocal,
      LocalSignature.ValueTypeLocal, LocalSignature.TokenBytes, LocalSignature.LocalBytes;
    LocalSignature.ExtensionExact(read, l.sig, l.ret, l.exc, l.state);
    OldLocalsCounted(read, l.sig);
  }

  lemma OldLocalsCounted(read: seq<byte> -> SignatureTrees.Parsed<seq<byte>>, sig: seq<byte>)
    requires LocalSignature.SigReadable(sig) && LocalSignature.Reader(read)
    requires LocalSignature.DecodeLocals(read, sig).Got?
    ensures |LocalSignature.DecodeLocals(read, sig).value| == LocalSignature.OldCount(sig)
  {
    hide LocalSignature.Reader;
    LocalSignature.ReadLocalsSound(read, LocalSignature.LocalBytes(sig), LocalSignature.OldCount(sig));
  }

  /** The indices handed back are the locals of the plan. */
  predicate IndicesAre(p: Plan, i: LocalSignature.Indices) {
    && i.state == StateLocal(p) && i.callTargetReturn == ReturnStateLocal(p) && i.exc == ExceptionLocal(p)
    && i.returnValue == if p.isVoid then LocalSignature.NO_INDEX else ReturnLocal(p)
  }

  /**
   What the callback hands to the runtime for a method with the given code and clauses: the encoding of a
   relaxed rewriting of the decoded code, and the moved clauses with the four new ones at their new offsets.
   */
  ghost predicate IsRewriting(p: Plan, bytes: seq<byte>, fats: seq<FatClause>, headerStack: nat, body: MethodBody,
                              code: Code, anchors: seq<Clause<int>>, w: Code)
  {
    && Imports(bytes, code) && Exportable(code) && |anchors| == |fats|
    && (forall i :: 0 <= i < |fats| ==> ImportsClause(code, fats[i], anchors[i]))
    && CodeRewritten(p, code, w) && Exportable(w) && Exportable(Relax(w)) && |Relax(w)| == |w|
    && body.code == Encode(Relax(w))
    && body.maxStack == headerStack + PushSum(w)
    && (forall i :: 0 <= i < |anchors| ==> InList(anchors[i], |code|))
    && ClausesExported(body.clauses, Relax(w), NewClauses(p, code, anchors))
  }

  ghost predicate ClausesExported(fats: seq<FatClause>, code: Code, cs: seq<Clause<int>>)
    requires OpcodesOk(code)
  {
    |fats| == |cs| && forall i :: 0 <= i < |fats| ==> InList(cs[i], |code|) && fats[i] == ExportClause(code, cs[i])
  }

  /** The body can be imported: code and clauses. */
  ghost predicate ImportableBody(bytes: seq<byte>, fats: seq<FatClause>) {
    exists code :: Imports(bytes, code) && forall i :: 0 <= i < |fats| ==> !Unanchorable(code, fats[i])
  }

  lemma NotImportable(bytes: seq<byte>, fats: seq<FatClause>)
    requires forall code :: Imports(bytes, code) ==> exists i :: 0 <= i < |fats| && Unanchorable(code, fats[i])
    ensures !ImportableBody(bytes, fats)
  {
    hide Imports, Unanchorable;
  }

  lemma IsImportable(bytes: seq<byte>, fats: seq<FatClause>, code: Code, anchors: seq<Clause<int>>)
    requires Imports(bytes, code) && OpcodesOk(code) && |anchors| == |fats|
    requires forall i :: 0 <= i < |fats| ==> ImportsClause(code, fats[i], anchors[i])
    ensures ImportableBody(bytes, fats)
  {
    hide Imports, ImportsClause;
    forall i | 0 <= i < |fats| ensures !Unanchorable(code, fats[i]) {
      assert ImportsClause(code, fats[i], anchors[i]);
    }
  }

  lemma NotEmpty(bytes: seq<byte>, code: Code)
    requires Imports(bytes, code) && 0 < |bytes| < MAX_SIZE
    ensures |code| > 0
  {
    hide Imports, Encode, Fits;
    ImportExportRoundTrip(bytes, code);
  }

  /**
   The rewriter callback. It exports exactly for bodies that can be imported, of instrumentable methods, in an
   AppDomain with the managed profiler, whose local signature can be extended; otherwise it skips the method. When
   the step on the local signature fails there is no first injected instruction, and nobody notices: for methods
   that are not skipped, clauses are then built from a pointer that was never set.
   */
  method Callback(bytes: seq<byte>, fats: seq<FatClause>, headerStack: nat, c: Caller, l: Locals, tokens: Tokens,
                  loaded: bool)
    returns (r: CallbackResult)
    requires 0 < |bytes| < MAX_SIZE && LocalsReadable(c, l)
    ensures r.Undefined? <==>
              && loaded && ImportableBody(bytes, fats)
              && (!StaysInside(l) || (ExtendedBefore(l) && Instrumentable(c)))
    ensures r.Rewritten? <==>
              && loaded && ImportableBody(bytes, fats) && Instrumentable(c)
              && StaysInside(l) && !ExtendedBefore(l)
    ensures r.Rewritten? ==>
              && LocalSignature.NewCount(l.sig, l.ret) < 0x2000_0000
              && r.localSig == LocalSignature.Extended(l.sig, l.ret, l.exc, l.state)
    ensures r.Rewritten? ==> exists code, anchors, w ::
              IsRewriting(CallbackPlan(c, l, tokens), bytes, fats, headerStack, r.body, code, anchors, w)
  {
    hide ILRewriter.Ring, Mirrors, PlanOf, ClausesAre, Imports, ImportsClause, CodeRewritten, Encode, FlagsOf, Fits,
      Unanchorable, Instrumentable, PushSum, NewClauses, ImportableBody, LocalSignature.Extended,
      LocalSignature.AlreadyModified, LocalSignature.SigReadable, LocalSignature.TokenBytes;
    if !loaded {
      return Skipped;
    }
    var p := CallbackPlan(c, l, tokens);
    var rw := new ILRewriter(headerStack, false);
    var hr := rw.Import(bytes, fats);
    if hr != Ok {
      NotImportable(bytes, fats);
      return Skipped;
    }
    ghost var code, anchors := rw.Body, rw.Anchors;
    IsImportable(bytes, fats, code, anchors);
    NotEmpty(bytes, code);
    var modified := LocalSignature.ModifyLocalSig(l.sig, l.ret, l.exc, l.state);
    if modified.ReadsOutside? || modified.WritesOutside? {
      return Undefined;
    }
    if modified.Refused? {
      return if Instrumentable(c) then Undefined else Skipped;
    }
    assert IndicesAre(p, modified.indices);
    var ok := RewriteList(rw, c, p);
    if !ok {
      return Skipped;
    }
    ghost var w := rw.Body;
    MirrorsNow(rw);
    RewrittenExportable(p, code, w);
    var body;
    hr, body := rw.Export();
    ClausesNow(rw);
    r := Rewritten(body, modified.sig);
    assert IsRewriting(p, bytes, fats, headerStack, r.body, code, anchors, w);
  }
}
