/**
 Exception-handling clauses (section II.25.4.6 of ECMA-335): anchored at list nodes while a body is edited,
 and as offsets and lengths in a method body.
 */
module ExceptionTable {
  import opened Bytes
  import opened OpCodes
  import opened ILCode
  import opened ILEditing
  import opened ILFormat

  /** A class token, or the start of a filter: which one is decided by the filter flag. */
  datatype Extra<+N> = ClassToken(token: nat) | Filter(start: N)

  /**
   A clause anchored at nodes N: the try region ends before `tryEnd`, the handler region ends with `handlerEnd`.
   */
  datatype Clause<+N> = Clause(flags: nat, tryBegin: N, tryEnd: N, handlerBegin: N, handlerEnd: N, extra: Extra<N>)

  /** A clause of the fat exception-handling section. */
  datatype FatClause =
    FatClause(flags: nat, tryOffset: nat, tryLength: nat, handlerOffset: nat, handlerLength: nat, tokenOrFilter: nat)

  const CLAUSE_NONE: nat := 0
  const CLAUSE_FINALLY: nat := 2

  predicate IsFilter(flags: nat) {
    flags % 2 == 1
  }

  /** Anchor positions in a list of n nodes; position n is the sentinel, and -1 the sentinel before the first node. */
  predicate InList(c: Clause<int>, n: nat) {
    && 0 <= c.tryBegin <= n && 0 <= c.tryEnd <= n && 0 <= c.handlerBegin <= n && -1 <= c.handlerEnd < n
    && (IsFilter(c.flags) <==> c.extra.Filter?)
    && (c.extra.Filter? ==> 0 <= c.extra.start <= n)
  }

  /** Regions that do not end before they begin. */
  predicate Ordered(c: Clause<int>) {
    c.tryBegin <= c.tryEnd && c.handlerBegin <= c.handlerEnd + 1
  }

  /** What the exporter writes for a clause; lengths are differences of unsigned offsets. */
  function ExportClause(code: Code, c: Clause<int>): FatClause
    requires OpcodesOk(code) && InList(c, |code|)
  {
    FatClause(
      c.flags,
      Offset(code, c.tryBegin),
      (Offset(code, c.tryEnd) - Offset(code, c.tryBegin)) % TWO_32,
      Offset(code, c.handlerBegin),
      (Offset(code, c.handlerEnd + 1) - Offset(code, c.handlerBegin)) % TWO_32,
      if c.extra.Filter? then Offset(code, c.extra.start) else c.extra.token)
  }

  /** What the importer makes of a clause: every end point must be the offset of an instruction or of the end. */
  ghost predicate ImportsClause(code: Code, fat: FatClause, c: Clause<int>)
    requires OpcodesOk(code)
  {
    && InList(c, |code|) && c.flags == fat.flags
    && StartsAt(code, fat.tryOffset, c.tryBegin)
    && StartsAt(code, (fat.tryOffset + fat.tryLength) % TWO_32, c.tryEnd)
    && StartsAt(code, fat.handlerOffset, c.handlerBegin)
    && StartsAt(code, (fat.handlerOffset + fat.handlerLength) % TWO_32, c.handlerEnd + 1)
    && (if IsFilter(fat.flags) then StartsAt(code, fat.tokenOrFilter, c.extra.start)
        else c.extra == ClassToken(fat.tokenOrFilter))
  }

  /** Some end point of the clause is the offset of no instruction and not the end of the body. */
  ghost predicate Unanchorable(code: Code, fat: FatClause) {
    OpcodesOk(code) && forall c :: !ImportsClause(code, fat, c)
  }

  predicate FatOk(fat: FatClause) {
    fat.tryLength < TWO_32 && fat.handlerLength < TWO_32
  }

  /** With no edits in between, importing and exporting a clause returns its offsets and lengths. */
  lemma ClauseRoundTrip(code: Code, fat: FatClause, c: Clause<int>)
    requires OpcodesOk(code) && CodeSize(code) < MAX_SIZE && FatOk(fat) && ImportsClause(code, fat, c)
    ensures ExportClause(code, c) == fat
  {
    hide Offset;
    OffsetGap(code, c.tryBegin, |code|);
    OffsetGap(code, c.handlerBegin, |code|);
  }

  /** The bytes of the instructions from i up to but not including j. */
  function EncodeRange(code: Code, i: nat, j: nat): seq<byte>
    requires Exportable(code) && i <= j <= |code|
    decreases j
  {
    if i == j then [] else EncodeRange(code, i, j - 1) + InstrBytes(code, j - 1)
  }

  lemma {:induction false} RangeBytes(code: Code, i: nat, j: nat)
    requires Exportable(code) && i <= j <= |code|
    ensures Offset(code, i) <= Offset(code, j) <= CodeSize(code)
    ensures Encode(code)[Offset(code, i)..Offset(code, j)] == EncodeRange(code, i, j)
    decreases j
  {
    hide InstrBytes, Encode, SizeOf, Offset, OperandOk, EncodeRange;
    OffsetGap(code, i, j);
    OffsetGap(code, j, |code|);
    if i < j {
      RangeBytes(code, i, j - 1);
      SliceOfEncoding(code, j - 1);
      SplitSlice(Encode(code), Offset(code, i), Offset(code, j - 1), Offset(code, j));
    }
    RangeUnfolds(code, i, j);
  }

  lemma RangeUnfolds(code: Code, i: nat, j: nat)
    requires Exportable(code) && i <= j <= |code|
    ensures EncodeRange(code, i, j) == if i == j then [] else EncodeRange(code, i, j - 1) + InstrBytes(code, j - 1)
  {
    hide InstrBytes;
  }

  /** An exported range, given by its offset and wrapped length, is the bytes of the nodes from i to j. */
  lemma RangeExported(code: Code, i: nat, j: nat)
    requires Exportable(code) && CodeSize(code) < MAX_SIZE && i <= j <= |code|
    ensures var offset, length := Offset(code, i), (Offset(code, j) - Offset(code, i)) % TWO_32;
            && length == Offset(code, j) - Offset(code, i)
            && offset + length <= CodeSize(code)
            && Encode(code)[offset..offset + length] == EncodeRange(code, i, j)
  {
    hide Encode, EncodeRange, Offset;
    RangeBytes(code, i, j);
  }

  /**
   The exported ranges are exactly the bytes of the try nodes (up to but excluding the end anchor) and of the
   handler nodes (including the end anchor), with non-negative lengths.
   */
  lemma ExportedRanges(code: Code, c: Clause<int>)
    requires Exportable(code) && CodeSize(code) < MAX_SIZE && InList(c, |code|) && Ordered(c)
    ensures var fat := ExportClause(code, c);
            && fat.tryLength == Offset(code, c.tryEnd) - Offset(code, c.tryBegin)
            && fat.tryOffset + fat.tryLength <= CodeSize(code)
            && Encode(code)[fat.tryOffset..fat.tryOffset + fat.tryLength]
               == EncodeRange(code, c.tryBegin, c.tryEnd)
    ensures var fat := ExportClause(code, c);
            && fat.handlerLength == Offset(code, c.handlerEnd + 1) - Offset(code, c.handlerBegin)
            && fat.handlerOffset + fat.handlerLength <= CodeSize(code)
            && Encode(code)[fat.handlerOffset..fat.handlerOffset + fat.handlerLength]
               == EncodeRange(code, c.handlerBegin, c.handlerEnd + 1)
  {
    hide Encode, EncodeRange, Offset, FlagsOf;
    RangeExported(code, c.tryBegin, c.tryEnd);
    RangeExported(code, c.handlerBegin, c.handlerEnd + 1);
  }

  // ---- anchors under editing

  function MovedExtra(e: Extra<int>, p: nat): Extra<int> {
    match e
    case ClassToken(_) => e
    case Filter(start) => Filter(Moved(start, p))
  }

  /** The positions of a clause's anchor nodes after a node is spliced in at p. */
  function MovedClause(c: Clause<int>, p: nat): Clause<int> {
    Clause(c.flags, Moved(c.tryBegin, p), Moved(c.tryEnd, p), Moved(c.handlerBegin, p), Moved(c.handlerEnd, p),
           MovedExtra(c.extra, p))
  }

  function MovedClauses(cs: seq<Clause<int>>, p: nat): (r: seq<Clause<int>>)
    ensures |r| == |cs|
  {
    seq(|cs|, i requires 0 <= i < |cs| => MovedClause(cs[i], p))
  }

  /** An insertion: where, and what (its branch target, if any, written against the list before it). */
  datatype Edit = Edit(p: nat, instr: Instr)

  predicate EditsOk(n: nat, edits: seq<Edit>)
    decreases |edits|
  {
    edits != [] ==> edits[0].p <= n && EditsOk(n + 1, edits[1..])
  }

  function MovedBy(t: int, edits: seq<Edit>): int
    decreases |edits|
  {
    if edits == [] then t else MovedBy(Moved(t, edits[0].p), edits[1..])
  }

  function ClauseMovedBy(c: Clause<int>, edits: seq<Edit>): Clause<int>
    decreases |edits|
  {
    if edits == [] then c else ClauseMovedBy(MovedClause(c, edits[0].p), edits[1..])
  }

  lemma {:induction false} MovedByMonotone(s: int, t: int, edits: seq<Edit>)
    ensures s < t ==> MovedBy(s, edits) < MovedBy(t, edits)
    ensures s <= t <==> MovedBy(s, edits) <= MovedBy(t, edits)
    decreases |edits|
  {
    if edits != [] {
      MovedByMonotone(Moved(s, edits[0].p), Moved(t, edits[0].p), edits[1..]);
    }
  }

  lemma {:induction false} AnchorsMoved(c: Clause<int>, n: nat, edits: seq<Edit>)
    requires InList(c, n) && EditsOk(n, edits)
    ensures var d := ClauseMovedBy(c, edits);
            && InList(d, n + |edits|)
            && d.tryBegin == MovedBy(c.tryBegin, edits) && d.tryEnd == MovedBy(c.tryEnd, edits)
            && d.handlerBegin == MovedBy(c.handlerBegin, edits) && d.handlerEnd == MovedBy(c.handlerEnd, edits)
    decreases |edits|
  {
    if edits != [] {
      AnchorsMoved(MovedClause(c, edits[0].p), n + 1, edits[1..]);
    }
  }

  /**
   Anchors survive editing: after any insertions, a node that was in the list before lies in a clause's try
   (handler) region exactly when it did before.
   */
  lemma AnchorsSurvive(c: Clause<int>, n: nat, edits: seq<Edit>, k: int)
    requires InList(c, n) && EditsOk(n, edits)
    ensures var d := ClauseMovedBy(c, edits);
            && InList(d, n + |edits|)
            && (c.tryBegin <= k < c.tryEnd <==> d.tryBegin <= MovedBy(k, edits) < d.tryEnd)
            && (c.handlerBegin <= k <= c.handlerEnd <==> d.handlerBegin <= MovedBy(k, edits) <= d.handlerEnd)
  {
    AnchorsMoved(c, n, edits);
    MovedByMonotone(c.tryBegin, k, edits);
    MovedByMonotone(c.tryEnd, k, edits);
    MovedByMonotone(c.handlerBegin, k, edits);
    MovedByMonotone(k, c.handlerEnd, edits);
  }

  /**
   The regions of a clause keep non-negative lengths under every sequence of insertions if and only if its
   handler is not empty: the two anchors of an empty handler are different nodes in the wrong order, and an
   insertion between them makes the length negative.
   */
  lemma StaysOrderedIff(c: Clause<int>, n: nat)
    requires InList(c, n) && Ordered(c)
    ensures (forall edits :: EditsOk(n, edits) ==> Ordered(ClauseMovedBy(c, edits)))
            <==> c.handlerBegin <= c.handlerEnd
  {
    if c.handlerBegin <= c.handlerEnd {
      forall edits | EditsOk(n, edits) ensures Ordered(ClauseMovedBy(c, edits)) {
        AnchorsMoved(c, n, edits);
        MovedByMonotone(c.tryBegin, c.tryEnd, edits);
        MovedByMonotone(c.handlerBegin, c.handlerEnd, edits);
      }
    } else {
      var edit := Edit(c.handlerBegin, Instr(NOP, Bits(0)));
      assert [edit][1..] == [];
      assert EditsOk(n + 1, []);
      assert EditsOk(n, [edit]);
      var d := MovedClause(c, c.handlerBegin);
      assert ClauseMovedBy(d, []) == d;
      assert ClauseMovedBy(c, [edit]) == ClauseMovedBy(d, [edit][1..]) == d;
      assert !Ordered(ClauseMovedBy(c, [edit]));
    }
  }
}
