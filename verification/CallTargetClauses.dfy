/**
 The clause table of a rewritten method is well nested (sections I.12.4.2.5 and I.12.4.2.7 of ECMA-335): every two
 clauses are disjoint or nested, and the nested one comes first.
 */
module CallTargetClauses {
  import opened OpCodes
  import opened ILCode
  import opened ExceptionTable
  import opened ILMachine
  import opened CallTargetCode

  /** A range of positions, up to but not including `end`. */
  datatype Range = Range(start: int, end: int)

  function TryRange(c: Clause<int>): Range {
    Range(c.tryBegin, c.tryEnd)
  }

  /** The handler, with the filter block in front of it if there is one. */
  function HandlerRange(c: Clause<int>): Range {
    Range(if c.extra.Filter? then c.extra.start else c.handlerBegin, c.handlerEnd + 1)
  }

  predicate Disjoint(a: Range, b: Range) {
    a.end <= b.start || b.end <= a.start
  }

  predicate Within(a: Range, b: Range) {
    b.start <= a.start && a.end <= b.end
  }

  predicate SelfOk(c: Clause<int>) {
    && c.tryBegin < c.tryEnd
    && HandlerRange(c).start <= c.handlerBegin <= c.handlerEnd
    && Disjoint(TryRange(c), HandlerRange(c))
  }

  predicate Apart(a: Clause<int>, b: Clause<int>) {
    && Disjoint(TryRange(a), TryRange(b)) && Disjoint(TryRange(a), HandlerRange(b))
    && Disjoint(HandlerRange(a), TryRange(b)) && Disjoint(HandlerRange(a), HandlerRange(b))
  }

  predicate InsideTry(a: Clause<int>, b: Clause<int>) {
    Within(TryRange(a), TryRange(b)) && Within(HandlerRange(a), TryRange(b))
  }

  predicate InsideHandler(a: Clause<int>, b: Clause<int>) {
    Within(TryRange(a), HandlerRange(b)) && Within(HandlerRange(a), HandlerRange(b))
  }

  /** Two handlers of the same try region. */
  predicate SameTry(a: Clause<int>, b: Clause<int>) {
    TryRange(a) == TryRange(b) && Disjoint(HandlerRange(a), HandlerRange(b))
  }

  /** `a` may come before `b`. */
  predicate Nests(a: Clause<int>, b: Clause<int>) {
    Apart(a, b) || InsideTry(a, b) || InsideHandler(a, b) || SameTry(a, b)
  }

  predicate WellNested(cs: seq<Clause<int>>) {
    && (forall i :: 0 <= i < |cs| ==> SelfOk(cs[i]))
    && (forall i, j :: 0 <= i < j < |cs| ==> Nests(cs[i], cs[j]))
  }

  /** A result store is inserted in front of position t. */
  predicate StoreBefore(p: Plan, code: Code, t: int) {
    !p.isVoid && 0 <= t < |code| && code[t].opcode == RET
  }

  /** `a` is nested in the handler of `b`, its try region ends with that handler, and a store is inserted there. */
  predicate Overhangs(p: Plan, code: Code, a: Clause<int>, b: Clause<int>) {
    InsideHandler(a, b) && a.tryEnd == b.handlerEnd + 1 && StoreBefore(p, code, a.tryEnd)
  }

  /** No try region of the table ends at the end of the body, or where a store grows it out of its handler. */
  predicate Extensible(p: Plan, code: Code, cs: seq<Clause<int>>) {
    && (forall i :: 0 <= i < |cs| ==> cs[i].tryEnd < |code|)
    && (forall i, j :: 0 <= i < j < |cs| ==> !Overhangs(p, code, cs[i], cs[j]))
  }

  predicate AllInList(cs: seq<Clause<int>>, n: nat) {
    forall i :: 0 <= i < |cs| ==> InList(cs[i], n)
  }

  // ---- positions

  lemma AnchorOrder(p: Plan, code: Code, i: int, j: int)
    requires 0 <= i <= |code| && 0 <= j <= |code|
    ensures i <= j <==> NewAnchor(p, code, i) <= NewAnchor(p, code, j)
    ensures i < |code| ==> BodyStart(p) <= NewAnchor(p, code, i) < CatchPos(p, code)
    ensures NewAnchor(p, code, |code|) == TotalSize(p, code) > CatchPos(p, code) + 2
  {
    hide BodyStart, EndBlock;
    if 0 <= i < j {
      AnchorBelow(p, code, i, j);
    }
    if 0 <= j < i {
      AnchorBelow(p, code, j, i);
    }
    if i < |code| {
      AnchorBelow(p, code, i, |code|);
      RetCountGap(p, code, 0, i);
    }
  }

  lemma AnchorBelow(p: Plan, code: Code, i: nat, j: nat)
    requires i < j <= |code|
    ensures NewAnchor(p, code, i) + 1 <= NewAnchor(p, code, j)
    ensures NewAnchor(p, code, i) < CatchPos(p, code)
  {
    hide EndBlock, BodyStart, NodePos, EntryPos;
    PositionsOrdered(p, code, i, j);
    PositionsOrdered(p, code, i, |code|);
  }

  /** The end of a region given by its last node k, against a node j: the same order, store or no store. */
  lemma LastOrder(p: Plan, code: Code, k: int, j: int)
    requires 0 <= k < |code| && 0 <= j <= |code|
    ensures k + 1 <= j <==> NewAnchor(p, code, k) + 1 <= NewAnchor(p, code, j)
    ensures j <= k <==> NewAnchor(p, code, j) <= NewAnchor(p, code, k)
    ensures j <= k + 1 && !(j == k + 1 && (StoreBefore(p, code, j) || j == |code|)) ==>
              NewAnchor(p, code, j) <= NewAnchor(p, code, k) + 1
    ensures j == k + 1 && StoreBefore(p, code, j) ==> NewAnchor(p, code, j) == NewAnchor(p, code, k) + 2
  {
    hide EndBlock, BodyStart;
    AnchorOrder(p, code, k, j);
    if k < j {
      AnchorBelow(p, code, k, j);
      PositionsOrdered(p, code, k, k + 1);
    }
  }

  /** What a region of an original clause is made of. */
  lemma NewRanges(p: Plan, code: Code, c: Clause<int>)
    requires InList(c, |code|) && SelfOk(c)
    ensures var d := NewClause(p, code, c);
            && TryRange(d) == Range(NewAnchor(p, code, c.tryBegin), NewAnchor(p, code, c.tryEnd))
            && HandlerRange(d).start == NewAnchor(p, code, HandlerRange(c).start)
            && HandlerRange(d).end == NewAnchor(p, code, c.handlerEnd) + 1
  {
    hide NewAnchor;
  }

  lemma NewSelfOk(p: Plan, code: Code, c: Clause<int>)
    requires InList(c, |code|) && SelfOk(c)
    ensures SelfOk(NewClause(p, code, c))
  {
    hide NewAnchor;
    NewRanges(p, code, c);
    var h := HandlerRange(c).start;
    AnchorOrder(p, code, c.tryEnd, c.tryBegin);
    AnchorOrder(p, code, h, c.handlerBegin);
    AnchorOrder(p, code, c.handlerBegin, c.handlerEnd);
    AnchorOrder(p, code, c.tryEnd, h);
    LastOrder(p, code, c.handlerEnd, c.tryBegin);
  }

  /** How two original clauses relate does not change, but for the one overhanging case. */
  lemma NewNests(p: Plan, code: Code, a: Clause<int>, b: Clause<int>)
    requires InList(a, |code|) && InList(b, |code|) && SelfOk(a) && SelfOk(b) && Nests(a, b)
    requires a.tryEnd < |code| && !Overhangs(p, code, a, b)
    ensures Nests(NewClause(p, code, a), NewClause(p, code, b))
  {
    hide NewAnchor, Apart, InsideTry, InsideHandler, SameTry;
    if Apart(a, b) {
      ApartKept(p, code, a, b);
    } else if InsideTry(a, b) {
      InsideTryKept(p, code, a, b);
    } else if SameTry(a, b) {
      SameTryKept(p, code, a, b);
    } else {
      InsideHandlerKept(p, code, a, b);
    }
  }

  lemma HandlersDisjoint(p: Plan, code: Code, a: Clause<int>, b: Clause<int>)
    requires InList(a, |code|) && InList(b, |code|) && SelfOk(a) && SelfOk(b)
    requires Disjoint(HandlerRange(a), HandlerRange(b))
    ensures Disjoint(HandlerRange(NewClause(p, code, a)), HandlerRange(NewClause(p, code, b)))
  {
    hide NewAnchor, NewClause;
    NewRanges(p, code, a);
    NewRanges(p, code, b);
    LastOrder(p, code, a.handlerEnd, HandlerRange(b).start);
    LastOrder(p, code, b.handlerEnd, HandlerRange(a).start);
  }

  lemma TryHandlerDisjoint(p: Plan, code: Code, a: Clause<int>, b: Clause<int>)
    requires InList(a, |code|) && InList(b, |code|) && SelfOk(a) && SelfOk(b)
    requires Disjoint(TryRange(a), HandlerRange(b))
    ensures Disjoint(TryRange(NewClause(p, code, a)), HandlerRange(NewClause(p, code, b)))
  {
    hide NewAnchor, NewClause;
    NewRanges(p, code, a);
    NewRanges(p, code, b);
    AnchorOrder(p, code, a.tryEnd, HandlerRange(b).start);
    LastOrder(p, code, b.handlerEnd, a.tryBegin);
  }

  lemma ApartKept(p: Plan, code: Code, a: Clause<int>, b: Clause<int>)
    requires InList(a, |code|) && InList(b, |code|) && SelfOk(a) && SelfOk(b) && Apart(a, b)
    ensures Apart(NewClause(p, code, a), NewClause(p, code, b))
  {
    hide NewAnchor, NewClause;
    NewRanges(p, code, a);
    NewRanges(p, code, b);
    HandlersDisjoint(p, code, a, b);
    TryHandlerDisjoint(p, code, a, b);
    TryHandlerDisjoint(p, code, b, a);
    AnchorOrder(p, code, a.tryEnd, b.tryBegin);
    AnchorOrder(p, code, b.tryEnd, a.tryBegin);
  }

  lemma InsideTryKept(p: Plan, code: Code, a: Clause<int>, b: Clause<int>)
    requires InList(a, |code|) && InList(b, |code|) && SelfOk(a) && SelfOk(b) && InsideTry(a, b)
    ensures InsideTry(NewClause(p, code, a), NewClause(p, code, b))
  {
    hide NewAnchor, NewClause;
    NewRanges(p, code, a);
    NewRanges(p, code, b);
    AnchorOrder(p, code, b.tryBegin, a.tryBegin);
    AnchorOrder(p, code, a.tryEnd, b.tryEnd);
    AnchorOrder(p, code, b.tryBegin, HandlerRange(a).start);
    LastOrder(p, code, a.handlerEnd, b.tryEnd);
  }

  lemma SameTryKept(p: Plan, code: Code, a: Clause<int>, b: Clause<int>)
    requires InList(a, |code|) && InList(b, |code|) && SelfOk(a) && SelfOk(b) && SameTry(a, b)
    ensures SameTry(NewClause(p, code, a), NewClause(p, code, b))
  {
    hide NewAnchor, NewClause;
    NewRanges(p, code, a);
    NewRanges(p, code, b);
    HandlersDisjoint(p, code, a, b);
  }

  lemma InsideHandlerKept(p: Plan, code: Code, a: Clause<int>, b: Clause<int>)
    requires InList(a, |code|) && InList(b, |code|) && SelfOk(a) && SelfOk(b) && InsideHandler(a, b)
    requires a.tryEnd < |code| && !Overhangs(p, code, a, b)
    ensures InsideHandler(NewClause(p, code, a), NewClause(p, code, b))
  {
    hide NewAnchor, NewClause;
    NewRanges(p, code, a);
    NewRanges(p, code, b);
    AnchorOrder(p, code, HandlerRange(b).start, a.tryBegin);
    AnchorOrder(p, code, HandlerRange(b).start, HandlerRange(a).start);
    AnchorOrder(p, code, a.handlerEnd, b.handlerEnd);
    LastOrder(p, code, b.handlerEnd, a.tryEnd);
  }

  // ---- the added clauses

  lemma AddedSelfOk(p: Plan, code: Code)
    requires |code| > 0
    ensures SelfOk(BeginClause(p, code)) && SelfOk(EndClause(p, code))
    ensures SelfOk(CatchClause(p, code)) && SelfOk(FinallyClause(p, code))
  {
    hide BeginBlock, EndBlock;
    AnchorOrder(p, code, 0, 0);
  }

  lemma AddedNest(p: Plan, code: Code)
    requires |code| > 0
    ensures Nests(BeginClause(p, code), EndClause(p, code)) && Nests(BeginClause(p, code), CatchClause(p, code))
    ensures Nests(BeginClause(p, code), FinallyClause(p, code)) && Nests(EndClause(p, code), CatchClause(p, code))
    ensures Nests(EndClause(p, code), FinallyClause(p, code)) && Nests(CatchClause(p, code), FinallyClause(p, code))
  {
    hide BeginBlock, EndBlock;
    AnchorOrder(p, code, 0, 0);
  }

  /** An original clause before the added ones. */
  lemma OriginalNests(p: Plan, code: Code, c: Clause<int>)
    requires InList(c, |code|) && SelfOk(c) && c.tryEnd < |code|
    ensures var d := NewClause(p, code, c);
            && Nests(d, BeginClause(p, code)) && Nests(d, EndClause(p, code))
            && Nests(d, CatchClause(p, code)) && Nests(d, FinallyClause(p, code))
  {
    hide BeginBlock, EndBlock, NewAnchor, CatchPos;
    NewRanges(p, code, c);
    AnchorOrder(p, code, c.tryBegin, c.tryEnd);
    AnchorOrder(p, code, c.tryEnd, c.tryBegin);
    AnchorOrder(p, code, HandlerRange(c).start, 0);
    AnchorOrder(p, code, c.handlerEnd, 0);
  }

  /** A try region that ended at the end of the body crosses the added catch clause. */
  lemma EndOfBodyCrosses(p: Plan, code: Code, c: Clause<int>)
    requires InList(c, |code|) && SelfOk(c) && c.tryEnd == |code|
    ensures !Nests(NewClause(p, code, c), CatchClause(p, code))
  {
    hide BeginBlock, EndBlock, NewAnchor, CatchPos;
    NewRanges(p, code, c);
    AnchorOrder(p, code, c.tryBegin, c.tryEnd);
  }

  lemma OverhangCrosses(p: Plan, code: Code, a: Clause<int>, b: Clause<int>)
    requires InList(a, |code|) && InList(b, |code|) && SelfOk(a) && SelfOk(b) && Overhangs(p, code, a, b)
    ensures !Nests(NewClause(p, code, a), NewClause(p, code, b))
  {
    hide NewAnchor, NewClause;
    NewRanges(p, code, a);
    NewRanges(p, code, b);
    LastOrder(p, code, b.handlerEnd, a.tryEnd);
    AnchorOrder(p, code, a.tryBegin, b.handlerEnd);
    AnchorOrder(p, code, HandlerRange(b).start, b.handlerEnd);
    NewSelfOk(p, code, b);
  }

  // ---- the table

  lemma TableEntries(p: Plan, code: Code, cs: seq<Clause<int>>)
    requires AllInList(cs, |code|)
    ensures var r, n := NewClauses(p, code, cs), |cs|;
            && (forall i :: 0 <= i < n ==> r[i] == NewClause(p, code, cs[i]))
            && r[n] == BeginClause(p, code) && r[n + 1] == EndClause(p, code)
            && r[n + 2] == CatchClause(p, code) && r[n + 3] == FinallyClause(p, code)
  {
    hide NewClause, BeginClause, EndClause, CatchClause, FinallyClause;
  }

  lemma TableNests(p: Plan, code: Code, cs: seq<Clause<int>>, i: nat, j: nat)
    requires AllInList(cs, |code|) && WellNested(cs) && Extensible(p, code, cs) && |code| > 0
    requires i < j < |cs| + 4
    ensures Nests(NewClauses(p, code, cs)[i], NewClauses(p, code, cs)[j])
  {
    hide NewClauses, NewClause, Nests, Overhangs, BeginClause, EndClause, CatchClause, FinallyClause;
    TableEntries(p, code, cs);
    if j < |cs| {
      NewNests(p, code, cs[i], cs[j]);
    } else if i < |cs| {
      OriginalNests(p, code, cs[i]);
    } else {
      AddedNest(p, code);
    }
  }

  lemma TableSelfOk(p: Plan, code: Code, cs: seq<Clause<int>>, i: nat)
    requires AllInList(cs, |code|) && WellNested(cs) && |code| > 0 && i < |cs| + 4
    ensures SelfOk(NewClauses(p, code, cs)[i])
  {
    hide NewClauses, NewClause, Nests, SelfOk, BeginClause, EndClause, CatchClause, FinallyClause;
    TableEntries(p, code, cs);
    if i < |cs| {
      NewSelfOk(p, code, cs[i]);
    } else {
      AddedSelfOk(p, code);
    }
  }

  /**
   From a well-nested table the rewriting makes a well-nested table if and only if no try region ended at the end
   of the body (those now reach over the appended handlers) and none was the last part of a handler in front of
   an inserted store.
   */
  lemma NewTableWellNestedIff(p: Plan, code: Code, cs: seq<Clause<int>>)
    requires AllInList(cs, |code|) && WellNested(cs) && |code| > 0
    ensures WellNested(NewClauses(p, code, cs)) <==> Extensible(p, code, cs)
  {
    hide NewClauses, NewClause, Nests, SelfOk, Overhangs;
    if Extensible(p, code, cs) {
      forall i | 0 <= i < |cs| + 4 ensures SelfOk(NewClauses(p, code, cs)[i]) {
        TableSelfOk(p, code, cs, i);
      }
      forall i, j | 0 <= i < j < |cs| + 4 ensures Nests(NewClauses(p, code, cs)[i], NewClauses(p, code, cs)[j]) {
        TableNests(p, code, cs, i, j);
      }
    } else {
      NotExtensible(p, code, cs);
    }
  }

  lemma NotExtensible(p: Plan, code: Code, cs: seq<Clause<int>>)
    requires AllInList(cs, |code|) && WellNested(cs) && !Extensible(p, code, cs)
    ensures !WellNested(NewClauses(p, code, cs))
  {
    hide NewClauses, NewClause, Nests, SelfOk, Overhangs;
    TableEntries(p, code, cs);
    var r, n := NewClauses(p, code, cs), |cs|;
    if i :| 0 <= i < n && cs[i].tryEnd >= |code| {
      EndOfBodyCrosses(p, code, cs[i]);
      assert !Nests(r[i], r[n + 2]);
    } else {
      var i, j :| 0 <= i < j < n && Overhangs(p, code, cs[i], cs[j]);
      OverhangCrosses(p, code, cs[i], cs[j]);
      assert !Nests(r[i], r[j]);
    }
  }

  /** What an original clause covers afterwards: its old instructions, and stores put in front of returns. */
  lemma CoversOnlyItsOwn(p: Plan, code: Code, c: Clause<int>, q: int)
    requires InList(c, |code|) && SelfOk(c) && c.tryEnd < |code|
    requires var d := NewClause(p, code, c); d.tryBegin <= q < d.tryEnd || d.handlerBegin <= q <= d.handlerEnd
    ensures exists k: nat :: k < |code|
              && (q == NodePos(p, code, k) || (q + 1 == NodePos(p, code, k) && StoreBefore(p, code, k)))
              && (c.tryBegin <= k < c.tryEnd || c.handlerBegin <= k <= c.handlerEnd
                  || (k == c.tryEnd && StoreBefore(p, code, k)))
  {
    hide NewAnchor, NodePos;
    var d := NewClause(p, code, c);
    if d.tryBegin <= q < d.tryEnd {
      var k := NodeAtOrAfter(p, code, q, c.tryBegin, c.tryEnd);
    } else {
      var k := NodeAtOrAfter(p, code, q, c.handlerBegin, c.handlerEnd);
    }
  }

  /** Between the nodes of i and j there is nothing but nodes and stores. */
  lemma {:induction false} NodeAtOrAfter(p: Plan, code: Code, q: int, i: nat, j: nat) returns (k: nat)
    requires i <= j < |code| && NewAnchor(p, code, i) <= q <= NewAnchor(p, code, j)
    ensures i <= k <= j && (q == NodePos(p, code, k) || (q + 1 == NodePos(p, code, k) && StoreBefore(p, code, k)))
    ensures q < NewAnchor(p, code, j) ==> k < j || (k == j && StoreBefore(p, code, k) && q + 1 == NodePos(p, code, k))
    decreases j - i
  {
    hide EntryPos;
    k := i;
    if q != NodePos(p, code, i) {
      PositionsOrdered(p, code, i, i + 1);
      if q + 1 == NodePos(p, code, i + 1) && StoreBefore(p, code, i + 1) {
        k := i + 1;
      } else {
        k := NodeAtOrAfter(p, code, q, i + 1, j);
      }
    }
  }

  // ---- the flags

  /** What a clause is, by its flags (section II.25.4.6 of ECMA-335). */
  function FlagName(flags: nat): string {
    match flags
    case 0x0 => "exception"
    case 0x1 => "filter"
    case 0x2 => "finally"
    case 0x4 => "fault"
    case _ => ""
  }

  /** The added clauses are three for class Exception and a finally; the machine goes by the same flags. */
  lemma FlagsNamed(p: Plan, code: Code, c: Clause<int>)
    ensures FlagName(BeginClause(p, code).flags) == FlagName(EndClause(p, code).flags) == "exception"
    ensures FlagName(CatchClause(p, code).flags) == "exception" && FlagName(FinallyClause(p, code).flags) == "finally"
    ensures BeginClause(p, code).extra == EndClause(p, code).extra == CatchClause(p, code).extra
            == ClassToken(p.tokens.exceptionType)
    ensures IsFinally(c) <==> FlagName(c.flags) == "finally"
    ensures IsFault(c) <==> FlagName(c.flags) == "fault"
    ensures IsFilter(c.flags) && c.flags <= 4 ==> FlagName(c.flags) == "filter" || c.flags == 3
  {
    hide BeginBlock, EndTryPos, EndLeavePos, EndFinallyPos, CatchPos;
  }
}
