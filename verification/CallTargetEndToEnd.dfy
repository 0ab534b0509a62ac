/** From bytes to behaviour: the body the callback exports runs as the contract of rewritten methods says. */
module CallTargetEndToEnd {
  import opened Bytes
  import opened ILCode
  import opened Relaxation
  import opened ILFormat
  import opened ExceptionTable
  import opened ILRewriterModel
  import opened ILMachine
  import opened MachineWidening
  import opened CallTargetCode
  import opened StraightLine
  import opened CallTargetBody
  import opened CallTargetMeaning
  import opened CallTargetTheorem
  import opened CallTargetContract
  import opened CallTargetCallback

  /** The method before: its decoded code and clauses. */
  function OldProgram(p: Plan, code: Code, anchors: seq<Clause<int>>): Program {
    Program(code, anchors, p.localCount, p.isVoid)
  }

  /** The method after: the list the exported bytes encode, and the new clauses. */
  function NewProgram(p: Plan, code: Code, anchors: seq<Clause<int>>, list: Code): Program
    requires forall i :: 0 <= i < |anchors| ==> InList(anchors[i], |code|)
  {
    Program(list, NewClauses(p, code, anchors), p.localCount, p.isVoid)
  }

  lemma ExportedIsRewriting(p: Plan, bytes: seq<byte>, fats: seq<FatClause>, headerStack: nat, body: MethodBody,
                            code: Code, anchors: seq<Clause<int>>, w: Code)
    requires IsRewriting(p, bytes, fats, headerStack, body, code, anchors, w)
    requires WellFormed(OldProgram(p, code, anchors)) && |code| > 0 && p.localCount + 4 <= 0x1_0000
    ensures Rewriting(p, OldProgram(p, code, anchors), NewProgram(p, code, anchors, w))
  {
    hide CodeRewritten, Imports, ImportsClause, Encode, Exportable, NewClauses;
    var cs := NewClauses(p, code, anchors);
    forall i | 0 <= i < |cs| ensures InList(cs[i], |w|) {
      assert InList(cs[i], |Relax(w)|);
    }
  }

  lemma NotEmptyCode(p: Plan, bytes: seq<byte>, fats: seq<FatClause>, headerStack: nat, body: MethodBody,
                     code: Code, anchors: seq<Clause<int>>, w: Code)
    requires IsRewriting(p, bytes, fats, headerStack, body, code, anchors, w)
    ensures |code| > 0 && body.code == Encode(Relax(w))
    ensures forall i :: 0 <= i < |anchors| ==> InList(anchors[i], |code|)
  {
    hide Imports, ImportsClause, Encode, NewClauses, ClausesExported;
  }

  /** The original method and what the callback made of it, with callbacks that behave. */
  ghost predicate Exported(p: Plan, bytes: seq<byte>, fats: seq<FatClause>, headerStack: nat, body: MethodBody,
                           code: Code, anchors: seq<Clause<int>>, w: Code, oracle: Oracle)
  {
    && IsRewriting(p, bytes, fats, headerStack, body, code, anchors, w)
    && BodyOk(OldProgram(p, code, anchors)) && p.localCount + 4 <= 0x1_0000
    && CatchesExceptions(NewProgram(p, code, anchors, w), oracle, p.tokens.exceptionType)
    && LogReturns(p, oracle) && BlocksTyped(p, oracle)
  }

  lemma ExportedSetting(p: Plan, bytes: seq<byte>, fats: seq<FatClause>, headerStack: nat, body: MethodBody,
                        code: Code, anchors: seq<Clause<int>>, w: Code, oracle: Oracle)
    requires Exported(p, bytes, fats, headerStack, body, code, anchors, w, oracle)
    ensures Setting(p, OldProgram(p, code, anchors), NewProgram(p, code, anchors, w), oracle)
  {
    hide CodeRewritten, Imports, ImportsClause, Encode, NewClauses, BlocksTyped, LogReturns, CatchesExceptions, Relax,
      ClausesExported, InstrOk, ClauseOk, Exportable, IsRewriting, Rewriting, WellFormed;
    NotEmptyCode(p, bytes, fats, headerStack, body, code, anchors, w);
    WellFormedBody(OldProgram(p, code, anchors));
    ExportedIsRewriting(p, bytes, fats, headerStack, body, code, anchors, w);
  }

  /**
   The exported method, run on any callbacks: if the original body ends, the exported method ends as `Wrapped`
   says, whatever short branches the exporter had to widen.
   */
  lemma ExportedMethodMeans(p: Plan, bytes: seq<byte>, fats: seq<FatClause>, headerStack: nat, body: MethodBody,
                            code: Code, anchors: seq<Clause<int>>, w: Code, oracle: Oracle, env: Env, n: nat)
    returns (m: nat)
    requires Exported(p, bytes, fats, headerStack, body, code, anchors, w, oracle)
    requires var o := OldProgram(p, code, anchors);
             BodyRun(p, o, oracle, env, n).Done?
             && RunPasses(p, o, oracle, env, BodyRun(p, o, oracle, env, n), BodySent(p, o, oracle, env, n))
    ensures body.code == Encode(Relax(w))
    ensures WellFormed(NewProgram(p, code, anchors, Relax(w)))
    ensures var o := OldProgram(p, code, anchors);
            Steps(NewProgram(p, code, anchors, Relax(w)), oracle, StateOf(Start(p, env), 0, []), m)
            == Wrapped(p, oracle, env, BodyRun(p, o, oracle, env, n), BodySent(p, o, oracle, env, n))
  {
    hide Encode, NewClauses, Steps, BlocksTyped, LogReturns, CatchesExceptions, Relax, IsRewriting, BodyOk, BodyRun,
      BodySent, RunPasses, Wrapped, Rewriting;
    NotEmptyCode(p, bytes, fats, headerStack, body, code, anchors, w);
    var o, x := OldProgram(p, code, anchors), NewProgram(p, code, anchors, w);
    ExportedSetting(p, bytes, fats, headerStack, body, code, anchors, w, oracle);
    BothWellFormed(p, o, x);
    m := CallTargetPreservesMeaning(p, o, x, oracle, env, n);
    RelaxedRunsTheSame(x, oracle, StateOf(Start(p, env), 0, []), m);
  }

  /** And so it meets the contract: EndMethod's calls, the exception, the value returned. */
  lemma ExportedMethodContract(p: Plan, bytes: seq<byte>, fats: seq<FatClause>, headerStack: nat, body: MethodBody,
                               code: Code, anchors: seq<Clause<int>>, w: Code, oracle: Oracle, env: Env, n: nat)
    returns (m: nat)
    requires Exported(p, bytes, fats, headerStack, body, code, anchors, w, oracle) && TokensDistinct(p.tokens)
    requires var o := OldProgram(p, code, anchors);
             BodyRun(p, o, oracle, env, n).Done?
             && RunPasses(p, o, oracle, env, BodyRun(p, o, oracle, env, n), BodySent(p, o, oracle, env, n))
    ensures body.code == Encode(Relax(w)) && WellFormed(NewProgram(p, code, anchors, Relax(w)))
    ensures var o := OldProgram(p, code, anchors);
            Contract(p, oracle, env, BodyRun(p, o, oracle, env, n), BodySent(p, o, oracle, env, n),
                     Steps(NewProgram(p, code, anchors, Relax(w)), oracle, StateOf(Start(p, env), 0, []), m))
  {
    hide Encode, NewClauses, Steps, BlocksTyped, LogReturns, CatchesExceptions, Relax, IsRewriting, BodyOk, BodyRun,
      BodySent, RunPasses, Wrapped, Contract;
    var o := OldProgram(p, code, anchors);
    WellFormedBody(o);
    m := ExportedMethodMeans(p, bytes, fats, headerStack, body, code, anchors, w, oracle, env, n);
    WrappedMeetsContract(p, oracle, env, BodyRun(p, o, oracle, env, n), BodySent(p, o, oracle, env, n));
  }
}
