/** The rewriter: a circular doubly linked list of instructions that is imported, edited in place and exported. */
module ILRewriterModel {
  import opened Bytes
  import opened OpCodes
  import opened ILCode
  import opened ILEditing
  import opened Relaxation
  import opened ILFormat
  import opened ILReimport
  import opened ExceptionTable

  /** The argument union of a list node. */
  datatype Payload = Raw(bits: nat) | Branch(target: ILInstr)

  datatype HResult = Ok | InvalidProgram | InvalidOperation | IndexOutOfRange | Fail

  /** What is handed to the runtime; depth and clauses only with a fat header. */
  datatype MethodBody = MethodBody(code: seq<byte>, maxStack: nat, clauses: seq<FatClause>)

  class ILInstr {
    var next: ILInstr?
    var prev: ILInstr?
    var opcode: nat
    var offset: nat
    var operand: Payload

    constructor ()
      ensures opcode == 0 && operand == Raw(0)
    {
      next, prev, opcode, offset, operand := null, null, 0, 0, Raw(0);
    }
  }

  /** Node i of a ring; the sentinel stands before the first node and after the last. */
  ghost function RingAt(nodes: seq<ILInstr>, sentinel: ILInstr, i: int): ILInstr
    requires -1 <= i <= |nodes|
  {
    if 0 <= i < |nodes| then nodes[i] else sentinel
  }

  ghost predicate Denotes(nodes: seq<ILInstr>, sentinel: ILInstr, p: Payload, o: Operand) {
    match o
    case Bits(w) => p == Raw(w)
    case Target(t) => t <= |nodes| && p == Branch(RingAt(nodes, sentinel, t))
  }

  ghost function Spliced(nodes: seq<ILInstr>, p: nat, what: ILInstr): (r: seq<ILInstr>)
    requires p <= |nodes|
    ensures |r| == |nodes| + 1
  {
    nodes[..p] + [what] + nodes[p..]
  }

  /** An operand still denotes the node it denoted after another node is spliced in. */
  lemma DenotesMoved(nodes: seq<ILInstr>, sentinel: ILInstr, p: nat, what: ILInstr, payload: Payload, o: Operand)
    requires p <= |nodes| && Denotes(nodes, sentinel, payload, o)
    ensures Denotes(Spliced(nodes, p, what), sentinel, payload, MovedOperand(o, p))
  {
  }

  /** Node i holds instruction i of `body`. */
  ghost predicate Holds(nodes: seq<ILInstr>, sentinel: ILInstr, body: Code, i: nat)
    requires i < |nodes| == |body|
    reads nodes`opcode, nodes`operand
  {
    nodes[i].opcode == body[i].opcode && Denotes(nodes, sentinel, nodes[i].operand, body[i].operand)
  }

  /** The nodes hold, position by position, the instructions of `body`. */
  ghost predicate Mirrors(nodes: seq<ILInstr>, sentinel: ILInstr, body: Code)
    reads nodes`opcode, nodes`operand
  {
    && |nodes| == |body|
    && OpcodesOk(body)
    && (forall i :: 0 <= i < |nodes| ==> Holds(nodes, sentinel, body, i))
  }

  lemma MirrorsAfterInsert(nodes: seq<ILInstr>, sentinel: ILInstr, body: Code, p: nat, what: ILInstr, operand: Operand)
    requires Mirrors(nodes, sentinel, body) && p <= |nodes|
    requires what.opcode < TABLE_SIZE && Denotes(nodes, sentinel, what.operand, operand)
    ensures Mirrors(Spliced(nodes, p, what), sentinel, InsertAt(body, p, Instr(what.opcode, operand)))
    ensures PushSum(InsertAt(body, p, Instr(what.opcode, operand))) == PushSum(body) + Pushes(what.opcode)
  {
    hide Pushes, PushSum, Denotes, MovedOperand;
    PushSumOfInsert(body, p, Instr(what.opcode, operand));
    var nodes' := Spliced(nodes, p, what);
    var body' := InsertAt(body, p, Instr(what.opcode, operand));
    forall i | 0 <= i < |nodes'| ensures Holds(nodes', sentinel, body', i) {
      if i == p {
        assert nodes'[i] == what && body'[i] == MovedInstr(Instr(what.opcode, operand), p);
        DenotesMoved(nodes, sentinel, p, what, what.operand, operand);
      } else {
        var j := if i < p then i else i - 1;
        assert Holds(nodes, sentinel, body, j);
        assert nodes'[i] == nodes[j] && body'[i] == MovedInstr(body[j], p);
        DenotesMoved(nodes, sentinel, p, what, nodes[j].operand, body[j].operand);
      }
    }
  }

  lemma RingAtMoved(nodes: seq<ILInstr>, sentinel: ILInstr, p: nat, what: ILInstr, t: int)
    requires p <= |nodes| && -1 <= t <= |nodes|
    ensures RingAt(Spliced(nodes, p, what), sentinel, Moved(t, p)) == RingAt(nodes, sentinel, t)
  {
  }

  /** The anchors of clause `c` are the nodes at the positions in `pos`. */
  ghost predicate ClauseIs(nodes: seq<ILInstr>, sentinel: ILInstr, c: Clause<ILInstr>, pos: Clause<int>) {
    && InList(pos, |nodes|) && c.flags == pos.flags
    && c.tryBegin == RingAt(nodes, sentinel, pos.tryBegin)
    && c.tryEnd == RingAt(nodes, sentinel, pos.tryEnd)
    && c.handlerBegin == RingAt(nodes, sentinel, pos.handlerBegin)
    && c.handlerEnd == RingAt(nodes, sentinel, pos.handlerEnd)
    && (match pos.extra
        case ClassToken(token) => c.extra == ClassToken(token)
        case Filter(start) => c.extra == Filter(RingAt(nodes, sentinel, start)))
  }

  ghost predicate ClausesAre(nodes: seq<ILInstr>, sentinel: ILInstr, cs: seq<Clause<ILInstr>>, ps: seq<Clause<int>>) {
    |cs| == |ps| && forall i :: 0 <= i < |cs| ==> ClauseIs(nodes, sentinel, cs[i], ps[i])
  }

  lemma ClausesMoved(nodes: seq<ILInstr>, sentinel: ILInstr, cs: seq<Clause<ILInstr>>, ps: seq<Clause<int>>,
                     p: nat, what: ILInstr)
    requires ClausesAre(nodes, sentinel, cs, ps) && p <= |nodes|
    ensures ClausesAre(Spliced(nodes, p, what), sentinel, cs, MovedClauses(ps, p))
  {
    hide RingAt, Spliced, Moved;
    forall i | 0 <= i < |cs| ensures ClauseIs(Spliced(nodes, p, what), sentinel, cs[i], MovedClause(ps[i], p)) {
      ClauseMoved(nodes, sentinel, cs[i], ps[i], p, what);
    }
  }

  lemma ClauseMoved(nodes: seq<ILInstr>, sentinel: ILInstr, c: Clause<ILInstr>, pos: Clause<int>, p: nat, what: ILInstr)
    requires ClauseIs(nodes, sentinel, c, pos) && p <= |nodes|
    ensures ClauseIs(Spliced(nodes, p, what), sentinel, c, MovedClause(pos, p))
  {
    assert |Spliced(nodes, p, what)| == |nodes| + 1;
    RingAtMoved(nodes, sentinel, p, what, pos.tryBegin);
    RingAtMoved(nodes, sentinel, p, what, pos.tryEnd);
    RingAtMoved(nodes, sentinel, p, what, pos.handlerBegin);
    RingAtMoved(nodes, sentinel, p, what, pos.handlerEnd);
    if pos.extra.Filter? {
      RingAtMoved(nodes, sentinel, p, what, pos.extra.start);
    }
  }

  lemma WideningKeepsPushes(a: Code, b: Code)
    requires Exportable(a) && Widens(a, b)
    ensures OpcodesOk(b) && PushSum(b) == PushSum(a)
  {
    hide Pushes, FlagsOf;
    WidensKeepsExportable(a, b);
    forall k | 0 <= k < |a| ensures Pushes(b[k].opcode) == Pushes(a[k].opcode) {
      assert a[k].operand == b[k].operand;
      if IsShort(a[k].opcode) {
        LongFormKeepsPushes(a[k].opcode);
      }
    }
    PushSumOfSameOpcodes(a, b);
  }

  /** The offset table of a body of `size` bytes: the node that starts at an offset, if one does. */
  ghost predicate TableEntry(table: seq<ILInstr?>, nodes: seq<ILInstr>, body: Code, off: nat)
    requires off < |table| && |nodes| == |body| && OpcodesOk(body)
  {
    table[off] != null ==> exists t :: 0 <= t < |nodes| && StartsAt(body, off, t) && table[off] == nodes[t]
  }

  ghost predicate TableFinds(table: seq<ILInstr?>, nodes: seq<ILInstr>, body: Code, t: nat)
    requires t < |nodes| == |body| && OpcodesOk(body)
  {
    body[t].opcode != SWITCH_ARG ==> Offset(body, t) < |table| - 1 && table[Offset(body, t)] == nodes[t]
  }

  ghost predicate TableOk(table: seq<ILInstr?>, nodes: seq<ILInstr>, sentinel: ILInstr, body: Code) {
    && |table| > 0 && |nodes| == |body| && OpcodesOk(body)
    && table[|table| - 1] == sentinel
    && (forall off :: 0 <= off < |table| - 1 ==> TableEntry(table, nodes, body, off))
    && (forall t :: 0 <= t < |nodes| ==> TableFinds(table, nodes, body, t))
  }

  /** Appending a node and, unless it is a switch argument, entering it into the table. */
  lemma TableExtended(table: seq<ILInstr?>, nodes: seq<ILInstr>, sentinel: ILInstr, body: Code,
                      instr: ILInstr, i: Instr, table': seq<ILInstr?>)
    requires TableOk(table, nodes, sentinel, body) && i.opcode < TABLE_SIZE
    requires i.opcode != SWITCH_ARG ==> CodeSize(body) < |table| - 1 && table' == table[CodeSize(body) := instr]
    requires i.opcode == SWITCH_ARG ==> table' == table
    requires forall k :: 0 <= k < |body| ==> SizeOf(body[k].opcode) > 0
    ensures TableOk(table', nodes + [instr], sentinel, body + [i])
  {
    hide SizeOf, Offset;
    var nodes', body' := nodes + [instr], body + [i];
    var n := |nodes|;
    OffsetOfPrefix(body, body', n);
    forall off | 0 <= off < |table'| - 1 ensures TableEntry(table', nodes', body', off) {
      if table'[off] != null {
        if i.opcode != SWITCH_ARG && off == CodeSize(body) {
          assert StartsAt(body', off, n) && table'[off] == nodes'[n];
        } else {
          assert TableEntry(table, nodes, body, off);
          var t :| 0 <= t < |nodes| && StartsAt(body, off, t) && table[off] == nodes[t];
          OffsetOfPrefix(body, body', t);
          assert StartsAt(body', off, t) && table'[off] == nodes'[t];
        }
      }
    }
    forall t | 0 <= t < |nodes'| ensures TableFinds(table', nodes', body', t) {
      if t < n {
        assert TableFinds(table, nodes, body, t);
        OffsetOfPrefix(body, body', t);
        OffsetStrict(body, t, n);
      }
    }
  }

  lemma RawSizes(body: Code)
    requires RawOk(body)
    ensures forall k :: 0 <= k < |body| ==> SizeOf(body[k].opcode) > 0
  {
    hide FlagsOf;
  }

  lemma SplicedDistinct(nodes: seq<ILInstr>, p: nat, what: ILInstr)
    requires p <= |nodes| && what !in nodes && forall i, j :: 0 <= i < j < |nodes| ==> nodes[i] != nodes[j]
    ensures var r := Spliced(nodes, p, what); forall i, j :: 0 <= i < j < |r| ==> r[i] != r[j]
  {
    var r := Spliced(nodes, p, what);
    forall i, j | 0 <= i < j < |r| ensures r[i] != r[j] {
      assert i != p ==> r[i] == nodes[if i < p then i else i - 1];
      assert j != p ==> r[j] == nodes[if j < p then j else j - 1];
    }
  }

  lemma LeavePushes()
    ensures Pushes(RET) == Pushes(LEAVE_S)
  {
  }

  class ILRewriter {
    const sentinel: ILInstr
    var instrCount: nat
    var maxStack: nat
    var tinyHeader: bool
    var clauses: seq<Clause<ILInstr>>
    /** The nodes of the ring after the sentinel, in order. */
    ghost var Nodes: seq<ILInstr>
    /** The list as a value. */
    ghost var Body: Code
    /** The clauses' anchors as positions. */
    ghost var Anchors: seq<Clause<int>>
    /** The depth the imported header declared. */
    ghost var HeaderStack: nat

    ghost function At(i: int): ILInstr
      requires -1 <= i <= |Nodes|
      reads this`Nodes
    {
      RingAt(Nodes, sentinel, i)
    }

    ghost predicate LinkedAt(i: int)
      requires -1 <= i < |Nodes|
      reads this`Nodes, sentinel`next, sentinel`prev, Nodes`next, Nodes`prev
    {
      At(i).next == At(i + 1) && At(i + 1).prev == At(i)
    }

    ghost predicate Ring()
      reads this`Nodes, sentinel`next, sentinel`prev, Nodes`next, Nodes`prev
    {
      && sentinel !in Nodes
      && (forall i, j :: 0 <= i < j < |Nodes| ==> Nodes[i] != Nodes[j])
      && (forall i :: -1 <= i < |Nodes| ==> LinkedAt(i))
    }

    /** The ring is well formed, holds no more nodes than were created, and the depth estimate counts all of it. */
    ghost predicate Valid()
      reads this, sentinel`next, sentinel`prev, Nodes`next, Nodes`prev, Nodes`opcode, Nodes`operand
    {
      && Ring()
      && Mirrors(Nodes, sentinel, Body)
      && |Nodes| == |Body| <= instrCount
      && maxStack == HeaderStack + PushSum(Body)
      && ClausesAre(Nodes, sentinel, clauses, Anchors)
    }

    constructor (headerStack: nat, tiny: bool)
      ensures Valid() && fresh(sentinel)
      ensures Nodes == [] && Body == [] && Anchors == [] && HeaderStack == headerStack
      ensures instrCount == 0 && tinyHeader == tiny
    {
      sentinel := new ILInstr();
      instrCount, maxStack, tinyHeader, clauses := 0, headerStack, tiny, [];
      Nodes, Body, HeaderStack, Anchors := [], [], headerStack, [];
      new;
      sentinel.next, sentinel.prev := sentinel, sentinel;
    }

    method NewILInstr() returns (instr: ILInstr)
      requires Valid()
      modifies this`instrCount
      ensures Valid() && fresh(instr) && instr !in Nodes && instr != sentinel
      ensures instr.opcode == 0 && instr.operand == Raw(0)
      ensures instrCount == old(instrCount) + 1
    {
      instrCount := instrCount + 1;
      instr := new ILInstr();
    }

    /** The pointer surgery shared by both insertions: `what` goes between nodes p - 1 and p. */
    method Splice(what: ILInstr, where: ILInstr, ghost p: nat)
      requires Ring() && p <= |Nodes| && where == At(p) && what !in Nodes && what != sentinel
      modifies this`Nodes, sentinel`next, sentinel`prev, Nodes`next, Nodes`prev, what`next, what`prev
      ensures Ring()
      ensures Nodes == Spliced(old(Nodes), p, what)
    {
      ghost var before := Nodes;
      assert LinkedAt(p - 1);
      what.next := where;
      what.prev := where.prev;
      what.next.prev := what;
      what.prev.next := what;
      SplicedDistinct(before, p, what);
      Nodes := Spliced(Nodes, p, what);
      forall i | -1 <= i < |Nodes| ensures LinkedAt(i) {
        if i < p - 1 {
          assert old(LinkedAt(i));
        } else if i > p {
          assert old(LinkedAt(i - 1));
        }
      }
    }

    /**
     Splices `what` in before `where`, the node at position p (the sentinel at the end). Every branch still
     targets the node it targeted.
     */
    method InsertBefore(where: ILInstr, what: ILInstr, ghost p: nat, ghost operand: Operand)
      requires Valid() && p <= |Nodes| < instrCount && where == At(p)
      requires what !in Nodes && what != sentinel && what.opcode < TABLE_SIZE
                && Denotes(Nodes, sentinel, what.operand, operand)
      modifies this`Nodes, this`Body, this`Anchors, this`maxStack
      modifies sentinel`next, sentinel`prev, Nodes`next, Nodes`prev, what`next, what`prev
      ensures Valid()
      ensures Nodes == Spliced(old(Nodes), p, what)
      ensures Body == InsertAt(old(Body), p, Instr(what.opcode, operand))
      ensures Anchors == MovedClauses(old(Anchors), p)
    {
      hide Holds, Pushes, PushSum, InsertAt, LinkedAt, ClausesAre, MovedClauses, Denotes, RingAt, OpcodesOk,
        MovedOperand, MovedClause, FlagsOf, SourceOf;
      MirrorsAfterInsert(Nodes, sentinel, Body, p, what, operand);
      ClausesMoved(Nodes, sentinel, clauses, Anchors, p, what);
      Splice(what, where, p);
      Body := InsertAt(Body, p, Instr(what.opcode, operand));
      Anchors := MovedClauses(Anchors, p);
      AdjustState(what);
    }

    /** Splices `what` in after `where`, the node at position p (-1 for the sentinel). */
    method InsertAfter(where: ILInstr, what: ILInstr, ghost p: int, ghost operand: Operand)
      requires Valid() && -1 <= p < |Nodes| < instrCount && where == At(p)
      requires what !in Nodes && what != sentinel && what.opcode < TABLE_SIZE
                && Denotes(Nodes, sentinel, what.operand, operand)
      modifies this`Nodes, this`Body, this`Anchors, this`maxStack
      modifies sentinel`next, sentinel`prev, Nodes`next, Nodes`prev, what`next, what`prev
      ensures Valid()
      ensures Nodes == Spliced(old(Nodes), p + 1, what)
      ensures Body == InsertAt(old(Body), p + 1, Instr(what.opcode, operand))
      ensures Anchors == MovedClauses(old(Anchors), p + 1)
    {
      hide Holds, Pushes, PushSum, InsertAt, LinkedAt, ClausesAre, MovedClauses, Denotes, RingAt, OpcodesOk,
        MovedOperand, MovedClause, FlagsOf, SourceOf;
      ghost var q: nat := p + 1;
      MirrorsAfterInsert(Nodes, sentinel, Body, q, what, operand);
      ClausesMoved(Nodes, sentinel, clauses, Anchors, q, what);
      SpliceAfter(what, where, p);
      assert Nodes == Spliced(old(Nodes), q, what);
      hide Spliced;
      Body := InsertAt(Body, q, Instr(what.opcode, operand));
      Anchors := MovedClauses(Anchors, q);
      AdjustState(what);
    }

    method SpliceAfter(what: ILInstr, where: ILInstr, ghost p: int)
      requires Ring() && -1 <= p < |Nodes| && where == At(p) && what !in Nodes && what != sentinel
      modifies this`Nodes, sentinel`next, sentinel`prev, Nodes`next, Nodes`prev, what`next, what`prev
      ensures Ring()
      ensures Nodes == Spliced(old(Nodes), p + 1, what)
    {
      SplicedDistinct(Nodes, p + 1, what);
      assert LinkedAt(p);
      what.next := where.next;
      what.prev := where;
      what.next.prev := what;
      what.prev.next := what;
      Nodes := Spliced(Nodes, p + 1, what);
      forall i | -1 <= i < |Nodes| ensures LinkedAt(i) {
        if i < p {
          assert old(LinkedAt(i));
        } else if i > p + 1 {
          assert old(LinkedAt(i - 1));
        }
      }
    }

    method AdjustState(newInstr: ILInstr)
      requires newInstr.opcode < TABLE_SIZE
      modifies this`maxStack
      ensures maxStack == old(maxStack) + Pushes(newInstr.opcode)
    {
      maxStack := maxStack + Pushes(newInstr.opcode);
    }

    // ---- import

    /** Creates a node and appends it to the list. */
    method Append(opcode: nat, bits: nat) returns (instr: ILInstr)
      requires Valid() && opcode < TABLE_SIZE && NoTargets(Body)
      modifies this`Nodes, this`Body, this`Anchors, this`maxStack, this`instrCount
      modifies sentinel`next, sentinel`prev, Nodes`next, Nodes`prev
      ensures Valid() && fresh(instr) && instr != sentinel && NoTargets(Body)
      ensures Nodes == old(Nodes) + [instr]
      ensures Body == old(Body) + [Instr(opcode, Bits(bits))]
      ensures Anchors == MovedClauses(old(Anchors), |old(Nodes)|)
    {
      hide Ring, Mirrors, ClausesAre, Pushes, PushSum;
      instr := NewILInstr();
      instr.opcode := opcode;
      instr.operand := Raw(bits);
      AppendedValue(Body, Instr(opcode, Bits(bits)));
      InsertBefore(sentinel, instr, |Nodes|, Bits(bits));
    }

    /** The state between two instructions of the reading loop. */
    ghost predicate Importing(table: array<ILInstr?>, size: nat)
      reads this, sentinel, Nodes, table
    {
      && Valid() && NoTargets(Body) && Anchors == []
      && RawOk(Body)
      && CodeSize(Body) <= size && table.Length == size + 1
      && TableOk(table[..], Nodes, sentinel, Body)
    }

    /** Appends a node that starts at the current offset and enters it into the offset table. */
    method AppendAt(opcode: nat, bits: nat, table: array<ILInstr?>, ghost size: nat, offset: nat)
      requires Importing(table, size) && Importable(opcode) && offset == CodeSize(Body)
      requires IsBranch(opcode) || bits < Pow256(OperandSize(opcode))
      requires offset + SizeOf(opcode) <= size
      modifies this`Nodes, this`Body, this`Anchors, this`maxStack, this`instrCount
      modifies sentinel`next, sentinel`prev, Nodes`next, Nodes`prev, table
      ensures Importing(table, size) && Body == old(Body) + [Instr(opcode, Bits(bits))]
      ensures CodeSize(Body) == offset + SizeOf(opcode)
      ensures exists x :: fresh(x) && Nodes == old(Nodes) + [x]
    {
      hide Ring, Mirrors, ClausesAre, Pushes, PushSum, FlagsOf, TableOk;
      ghost var nodes, body, tab := Nodes, Body, table[..];
      RawSizes(body);
      var instr := Append(opcode, bits);
      table[offset] := instr;
      assert table[..] == tab[offset := instr];
      TableExtended(tab, nodes, sentinel, body, instr, Instr(opcode, Bits(bits)), table[..]);
      OffsetOfPrefix(body, Body, |body|);
    }

    /** Appends a switch argument, which the offset table does not list. */
    method AppendArg(bits: nat, table: array<ILInstr?>, ghost size: nat)
      requires Importing(table, size) && CodeSize(Body) + 4 <= size
      modifies this`Nodes, this`Body, this`Anchors, this`maxStack, this`instrCount
      modifies sentinel`next, sentinel`prev, Nodes`next, Nodes`prev
      ensures Importing(table, size) && Body == old(Body) + [Instr(SWITCH_ARG, Bits(bits))]
      ensures CodeSize(Body) == old(CodeSize(Body)) + 4
      ensures exists x :: fresh(x) && Nodes == old(Nodes) + [x]
    {
      hide Ring, Mirrors, ClausesAre, Pushes, PushSum, FlagsOf, TableOk;
      ghost var nodes, body := Nodes, Body;
      RawSizes(body);
      var instr := Append(SWITCH_ARG, bits);
      TableExtended(table[..], nodes, sentinel, body, instr, Instr(SWITCH_ARG, Bits(bits)), table[..]);
      OffsetOfPrefix(body, Body, |body|);
      assert SizeOf(SWITCH_ARG) == 4;
    }

    /** The arguments of a switch: one node each, all counting from `base`. */
    method ReadArgs(bytes: seq<byte>, at: nat, base: nat, count: nat, table: array<ILInstr?>)
      returns (ok: bool, next: nat)
      requires Importing(table, |bytes|) && at == CodeSize(Body) <= |bytes|
      modifies this`Nodes, this`Body, this`Anchors, this`maxStack, this`instrCount
      modifies sentinel`next, sentinel`prev, Nodes`next, Nodes`prev
      ensures Importing(table, |bytes|)
      ensures forall i :: 0 <= i < |Nodes| ==> Nodes[i] in old(Nodes) || fresh(Nodes[i])
      ensures ok == ReadSwitchArgs(bytes, at, base, count).Read?
      ensures ok ==> next == ReadSwitchArgs(bytes, at, base, count).next == CodeSize(Body)
                     && Body == old(Body) + ReadSwitchArgs(bytes, at, base, count).value
    {
      hide Valid, TableOk, Field, FlagsOf, SwitchArgAt, NoTargets;
      next := at;
      ghost var done: Code := [];
      PrependStep([], Instr(SWITCH_ARG, Bits(0)), ReadSwitchArgs(bytes, at, base, count));
      for i := 0 to count
        invariant Importing(table, |bytes|) && OpcodesOk(Body)
        invariant next == CodeSize(Body) <= |bytes|
        invariant Body == old(Body) + done
        invariant ReadSwitchArgs(bytes, at, base, count)
                  == Prepend(done, ReadSwitchArgs(bytes, next, base, count - i))
        invariant forall j :: 0 <= j < |Nodes| ==> Nodes[j] in old(Nodes) || fresh(Nodes[j])
      {
        if next + 4 > |bytes| {
          return false, next;
        }
        ghost var body := Body;
        AppendArg(SwitchArgAt(bytes, next, base).operand.w, table, |bytes|);
        assert Body == body + [SwitchArgAt(bytes, next, base)];
        PrependStep(done, SwitchArgAt(bytes, next, base), ReadSwitchArgs(bytes, next + 4, base, count - i - 1));
        done := done + [SwitchArgAt(bytes, next, base)];
        next := next + 4;
      }
      ok := true;
    }

    /** One instruction of the reading loop. */
    method ReadOne(bytes: seq<byte>, at: nat, table: array<ILInstr?>) returns (ok: bool, next: nat)
      requires Importing(table, |bytes|) && at == CodeSize(Body) < |bytes|
      modifies this`Nodes, this`Body, this`Anchors, this`maxStack, this`instrCount
      modifies sentinel`next, sentinel`prev, Nodes`next, Nodes`prev, table
      ensures Importing(table, |bytes|)
      ensures forall i :: 0 <= i < |Nodes| ==> Nodes[i] in old(Nodes) || fresh(Nodes[i])
      ensures ok == ReadInstr(bytes, at).Read?
      ensures ok ==> next == ReadInstr(bytes, at).next == CodeSize(Body)
                     && Body == old(Body) + ReadInstr(bytes, at).value
    {
      hide Valid, TableOk, RawOk, NoTargets, ReadOpcode, Field, FromLe, ReadSwitchArgs;
      next := at;
      var op := ReadOpcode(bytes, at);
      if op.Bad? {
        return false, next;
      }
      match FlagsOf(op.value) {
        case Plain(size) =>
          if op.next + size > |bytes| {
            return false, next;
          }
          AppendAt(op.value, Field(bytes, op.next, size), table, |bytes|, at);
          ok, next := true, op.next + size;
        case ShortBranch =>
          if op.next + 1 > |bytes| {
            return false, next;
          }
          AppendAt(op.value, (op.next + 1 + Signed8(bytes[op.next])) % TWO_32, table, |bytes|, at);
          ok, next := true, op.next + 1;
        case LongBranch =>
          if op.next + 4 > |bytes| {
            return false, next;
          }
          AppendAt(op.value, (op.next + 4 + Field(bytes, op.next, 4)) % TWO_32, table, |bytes|, at);
          ok, next := true, op.next + 4;
        case SwitchTable =>
          ok, next := ReadSwitchNodes(bytes, at, op.next, table);
      }
    }

    method ReadSwitchNodes(bytes: seq<byte>, at: nat, counted: nat, table: array<ILInstr?>)
      returns (ok: bool, next: nat)
      requires Importing(table, |bytes|) && at == CodeSize(Body) < |bytes| && counted == at + 1
      modifies this`Nodes, this`Body, this`Anchors, this`maxStack, this`instrCount
      modifies sentinel`next, sentinel`prev, Nodes`next, Nodes`prev, table
      ensures Importing(table, |bytes|)
      ensures forall i :: 0 <= i < |Nodes| ==> Nodes[i] in old(Nodes) || fresh(Nodes[i])
      ensures ok == ReadSwitch(bytes, counted).Read?
      ensures ok ==> next == ReadSwitch(bytes, counted).next == CodeSize(Body)
                     && Body == old(Body) + ReadSwitch(bytes, counted).value
    {
      hide Valid, TableOk, RawOk, NoTargets, Field, ReadSwitchArgs;
      if counted + 4 > |bytes| {
        return false, at;
      }
      var count := Field(bytes, counted, 4);
      AppendAt(SWITCH, count, table, |bytes|, at);
      ok, next := ReadArgs(bytes, counted + 4, (counted + 4 + 4 * count) % TWO_32, count, table);
      if ok {
        assert Body == old(Body) + ReadSwitch(bytes, counted).value;
      }
    }

    /** The reading loop: the nodes of the whole body, branches still holding offsets. */
    method ReadNodes(bytes: seq<byte>, table: array<ILInstr?>) returns (ok: bool)
      requires Importing(table, |bytes|) && Nodes == [] && Body == []
      modifies this`Nodes, this`Body, this`Anchors, this`maxStack, this`instrCount
      modifies sentinel`next, sentinel`prev, table
      ensures Importing(table, |bytes|)
      ensures forall i :: 0 <= i < |Nodes| ==> fresh(Nodes[i])
      ensures ok == ReadBody(bytes, 0).Some?
      ensures ok ==> Body == ReadBody(bytes, 0).value && CodeSize(Body) == |bytes|
    {
      hide Valid, TableOk, NoTargets, ReadInstr, FlagsOf;
      var offset := 0;
      PrependNothing(ReadBody(bytes, 0));
      while offset < |bytes|
        invariant Importing(table, |bytes|) && offset == CodeSize(Body) <= |bytes|
        invariant ReadBody(bytes, 0) == PrependBody(Body, ReadBody(bytes, offset))
        invariant forall j :: 0 <= j < |Nodes| ==> fresh(Nodes[j])
      {
        PrependBodyStep(Body, bytes, offset);
        ok, offset := ReadOne(bytes, offset, table);
        if !ok {
          return false;
        }
      }
      ok := offset == |bytes|;
    }

    /** Points branch k at node t. */
    method SetTarget(instr: ILInstr, target: ILInstr, ghost k: nat, ghost t: nat)
      requires Valid() && k < |Nodes| && instr == Nodes[k] && t <= |Nodes| && target == At(t)
      modifies this`Body, instr`operand
      ensures Valid() && Body == old(Body)[k := Instr(old(Body)[k].opcode, Target(t))]
      ensures instr.operand == Branch(target)
    {
      hide Ring, ClausesAre, Pushes, PushSum;
      ghost var body := Body;
      NodesDiffer(k);
      instr.operand := Branch(target);
      Body := Body[k := Instr(Body[k].opcode, Target(t))];
      PushSumOfSameOpcodes(body, Body);
      forall i: nat | i < |Nodes| ensures Holds(Nodes, sentinel, Body, i) {
        assert old(Holds(Nodes, sentinel, Body, i));
      }
    }

    /** Turns node k, a return, into a leave to node t. */
    method ReturnToLeave(instr: ILInstr, target: ILInstr, ghost k: nat, ghost t: nat)
      requires Valid() && k < |Nodes| && instr == Nodes[k] && instr.opcode == RET && t <= |Nodes| && target == At(t)
      modifies this`Body, instr`opcode, instr`operand
      ensures Valid() && Body == old(Body)[k := Instr(LEAVE_S, Target(t))]
      ensures instr.opcode == LEAVE_S && instr.operand == Branch(target)
    {
      hide Ring, ClausesAre, Pushes, PushSum;
      ghost var body := Body;
      NodesDiffer(k);
      assert Holds(Nodes, sentinel, Body, k);
      instr.opcode := LEAVE_S;
      instr.operand := Branch(target);
      Body := Body[k := Instr(LEAVE_S, Target(t))];
      assert Pushes(RET) == Pushes(LEAVE_S) by { LeavePushes(); }
      PushSumOfSameOpcodes(body, Body);
      forall i: nat | i < |Nodes| ensures Holds(Nodes, sentinel, Body, i) {
        assert old(Holds(Nodes, sentinel, Body, i));
      }
    }

    /** Replaces the clauses. */
    method SetEHClause(cs: seq<Clause<ILInstr>>, ghost ps: seq<Clause<int>>)
      requires Valid() && ClausesAre(Nodes, sentinel, cs, ps)
      modifies this`clauses, this`Anchors
      ensures Valid() && clauses == cs && Anchors == ps
    {
      clauses := cs;
      Anchors := ps;
    }

    lemma NodesDiffer(k: nat)
      requires Ring() && k < |Nodes|
      ensures forall i :: 0 <= i < |Nodes| && i != k ==> Nodes[i] != Nodes[k]
    {
    }

    /** The table lookup: the node that starts at `off`, or the sentinel at the end of the body. */
    method GetInstrFromOffset(off: nat, table: array<ILInstr?>, ghost raw: Code)
      returns (instr: ILInstr?, ghost t: nat)
      requires TableOk(table[..], Nodes, sentinel, raw) && CodeSize(raw) == table.Length - 1
      requires forall k :: 0 <= k < |raw| ==> SizeOf(raw[k].opcode) > 0
      ensures instr != null ==> t <= |Nodes| && instr == At(t) && StartsAt(raw, off, t)
      ensures instr == null ==> forall u: nat :: !StartsAt(raw, off, u)
    {
      hide SizeOf, Offset;
      instr, t := null, 0;
      if off < table.Length {
        instr := table[off];
        if instr == null {
          forall u: nat | u <= |raw| ensures !StartsAt(raw, off, u) {
            if u < |raw| {
              assert TableFinds(table[..], Nodes, raw, u);
            }
          }
        } else if off < table.Length - 1 {
          assert TableEntry(table[..], Nodes, raw, off);
          t :| 0 <= t < |Nodes| && StartsAt(raw, off, t) && table[off] == Nodes[t];
        } else {
          t := |Nodes|;
        }
      } else {
        forall u: nat | u <= |raw| ensures !StartsAt(raw, off, u) {
          OffsetGap(raw, u, |raw|);
        }
      }
    }

    /** Mid-resolution: the first k instructions of `raw` are resolved, the rest still hold offsets. */
    ghost predicate PartlyResolved(raw: Code, k: nat)
      reads this`Body
    {
      && RawOk(raw) && |Body| == |raw| && k <= |raw|
      && (forall i :: 0 <= i < k ==> ResolvesAt(raw, Body, i))
      && (forall i :: k <= i < |raw| ==> Body[i] == raw[i])
    }

    /** Resolves one branch through the offset table. */
    method ResolveTarget(instr: ILInstr, table: array<ILInstr?>, ghost raw: Code, ghost k: nat) returns (ok: bool)
      requires Valid() && k < |Nodes| && instr == Nodes[k] && PartlyResolved(raw, k)
      requires TableOk(table[..], Nodes, sentinel, raw) && CodeSize(raw) == table.Length - 1
      modifies this`Body, instr`operand
      ensures Valid() && |Body| == |raw|
      ensures ok ==> PartlyResolved(raw, k + 1)
      ensures !ok ==> forall code :: !Resolves(raw, code)
    {
      hide Ring, ClausesAre, PushSum, FlagsOf, StartsAt, TableOk;
      ok := true;
      Walk(k);
      assert Body[k] == raw[k];
      if IsBranch(instr.opcode) {
        RawSizes(raw);
        var target, t := GetInstrFromOffset(instr.operand.bits, table, raw);
        if target == null {
          Unresolvable(raw, k);
          return false;
        }
        ghost var body := Body;
        SetTarget(instr, target, k, t);
        forall i | 0 <= i < k ensures ResolvesAt(raw, Body, i) {
          assert ResolvesAt(raw, body, i);
        }
      }
    }

    /** The resolving loop of the importer. */
    method ResolveTargets(table: array<ILInstr?>) returns (ok: bool)
      requires table.Length > 0 && Importing(table, table.Length - 1) && CodeSize(Body) == table.Length - 1
      modifies this`Body, Nodes`operand
      ensures Valid() && RawOk(old(Body)) && |Body| == |old(Body)|
      ensures ok ==> Resolves(old(Body), Body)
      ensures !ok ==> forall code :: !Resolves(old(Body), code)
    {
      hide Ring, Mirrors, ClausesAre, PushSum, FlagsOf, StartsAt, TableOk, ResolvesAt;
      ghost var raw := Body;
      var instr := sentinel.next;
      ghost var k := 0;
      Walk(-1);
      while instr != sentinel
        invariant Valid() && k <= |Nodes| && instr == At(k) && (k < |Nodes| ==> At(k) != sentinel)
        invariant PartlyResolved(raw, k)
        decreases |Nodes| - k
      {
        Walk(k);
        ok := ResolveTarget(instr, table, raw, k);
        if !ok {
          return;
        }
        k := k + 1;
        instr := instr.next;
      }
      ok := true;
    }

    /** The offset table describes the list. */
    ghost predicate TableReady(table: array<ILInstr?>)
      reads this`Nodes, this`Body, table
    {
      && OpcodesOk(Body) && TableOk(table[..], Nodes, sentinel, Body) && CodeSize(Body) == table.Length - 1
      && forall k :: 0 <= k < |Body| ==> SizeOf(Body[k].opcode) > 0
    }

    lemma TableOfResolved(table: seq<ILInstr?>, raw: Code)
      requires RawOk(raw) && Resolves(raw, Body) && TableOk(table, Nodes, sentinel, raw)
      ensures OpcodesOk(Body) && TableOk(table, Nodes, sentinel, Body) && CodeSize(Body) == CodeSize(raw)
      ensures forall k :: 0 <= k < |Body| ==> SizeOf(Body[k].opcode) > 0
    {
      hide FlagsOf, StartsAt;
      RawSizes(raw);
      forall k | 0 <= k < |Body| ensures Body[k].opcode == raw[k].opcode {
        assert ResolvesAt(raw, Body, k);
      }
      forall k: nat | k <= |Body| ensures Offset(Body, k) == Offset(raw, k) {
        OffsetOfPrefix(Body, raw, k);
      }
      forall off | 0 <= off < |table| - 1 ensures TableEntry(table, Nodes, Body, off) {
        assert TableEntry(table, Nodes, raw, off);
        if table[off] != null {
          var t :| 0 <= t < |Nodes| && StartsAt(raw, off, t) && table[off] == Nodes[t];
          StartsAtSame(raw, Body, off, t);
        }
      }
      forall t | 0 <= t < |Nodes| ensures TableFinds(table, Nodes, Body, t) {
        assert TableFinds(table, Nodes, raw, t);
      }
    }

    lemma StartsAtSame(a: Code, b: Code, off: nat, t: nat)
      requires OpcodesOk(a) && OpcodesOk(b) && |a| == |b|
      requires forall k :: 0 <= k < |a| ==> a[k].opcode == b[k].opcode
      ensures StartsAt(a, off, t) == StartsAt(b, off, t)
    {
      if t <= |a| {
        OffsetOfPrefix(a, b, t);
      }
    }

    /** Imports a body. It fails exactly on byte strings that are no encoding of any list. */
    method ImportIL(bytes: seq<byte>) returns (hr: HResult, table: array<ILInstr?>)
      requires Valid() && Nodes == [] && Body == [] && Anchors == [] && |bytes| < MAX_SIZE
      modifies this`Nodes, this`Body, this`Anchors, this`maxStack, this`instrCount, sentinel`next, sentinel`prev
      ensures Valid() && fresh(table) && Anchors == []
      ensures forall i :: 0 <= i < |Nodes| ==> fresh(Nodes[i])
      ensures hr == Ok || hr == InvalidProgram
      ensures hr == Ok ==> Imports(bytes, Body)
      ensures hr == Ok ==> TableReady(table)
      ensures hr != Ok ==> forall code :: !Imports(bytes, code)
    {
      hide Ring, Mirrors, ClausesAre, PushSum, FlagsOf, StartsAt, ResolvesAt;
      table := new ILInstr?[|bytes| + 1](i => if i == |bytes| then sentinel else null);
      TableStarts(table[..]);
      var ok := ReadNodes(bytes, table);
      if !ok {
        return InvalidProgram, table;
      }
      ghost var raw := Body;
      ok := ResolveTargets(table);
      if ok {
        TableOfResolved(table[..], raw);
      }
      hr := if ok then Ok else InvalidProgram;
    }

    lemma TableStarts(table: seq<ILInstr?>)
      requires |table| > 0 && table[|table| - 1] == sentinel
      requires forall off :: 0 <= off < |table| - 1 ==> table[off] == null
      ensures TableOk(table, [], sentinel, [])
    {
    }

    /** Anchors one clause at the nodes its end points start at. */
    method ImportClause(fat: FatClause, table: array<ILInstr?>)
      returns (ok: bool, c: Clause<ILInstr>, ghost pos: Clause<int>)
      requires Valid() && TableReady(table)
      ensures ok ==> ClauseIs(Nodes, sentinel, c, pos) && ImportsClause(Body, fat, pos)
      ensures !ok ==> Unanchorable(Body, fat)
    {
      hide Ring, Mirrors, ClausesAre, PushSum, TableOk, StartsAt, Offset, FlagsOf;
      c := Clause(fat.flags, sentinel, sentinel, sentinel, sentinel, ClassToken(fat.tokenOrFilter));
      pos := Clause(fat.flags, 0, 0, 0, 0, ClassToken(fat.tokenOrFilter));
      ok := false;
      var tryBegin, t0 := GetInstrFromOffset(fat.tryOffset, table, Body);
      if tryBegin == null { return; }
      var tryEnd, t1 := GetInstrFromOffset((fat.tryOffset + fat.tryLength) % TWO_32, table, Body);
      if tryEnd == null { return; }
      var handlerBegin, t2 := GetInstrFromOffset(fat.handlerOffset, table, Body);
      if handlerBegin == null { return; }
      var pastHandler, t3 := GetInstrFromOffset((fat.handlerOffset + fat.handlerLength) % TWO_32, table, Body);
      if pastHandler == null { return; }
      var handlerEnd := Previous(pastHandler, t3);
      ghost var last: int := t3 as int - 1;
      if !IsFilter(fat.flags) {
        c := Clause(fat.flags, tryBegin, tryEnd, handlerBegin, handlerEnd, ClassToken(fat.tokenOrFilter));
        pos := Clause(fat.flags, t0 as int, t1 as int, t2 as int, last, ClassToken(fat.tokenOrFilter));
      } else {
        var filter, t4 := GetInstrFromOffset(fat.tokenOrFilter, table, Body);
        if filter == null { return; }
        c := Clause(fat.flags, tryBegin, tryEnd, handlerBegin, handlerEnd, Filter(filter));
        pos := Clause(fat.flags, t0 as int, t1 as int, t2 as int, last, Filter(t4 as int));
      }
      ok := true;
    }

    /** The node before node t. */
    method Previous(instr: ILInstr, ghost t: nat) returns (prev: ILInstr)
      requires Valid() && t <= |Nodes| && instr == At(t)
      ensures prev == At(t - 1)
    {
      assert LinkedAt(t - 1);
      prev := instr.prev;
    }

    /**
     Imports the clauses, in order, unless there are some already. It fails exactly when some clause has an end
     point where no node starts.
     */
    method ImportEH(fats: seq<FatClause>, table: array<ILInstr?>) returns (hr: HResult)
      requires Valid() && TableReady(table)
      modifies this`clauses, this`Anchors
      ensures Valid() && (hr == Ok || hr == InvalidProgram || hr == InvalidOperation)
      ensures hr == InvalidOperation <==> old(Anchors) != []
      ensures hr == InvalidOperation ==> clauses == old(clauses) && Anchors == old(Anchors)
      ensures hr == Ok ==> |Anchors| == |fats|
                           && forall i :: 0 <= i < |fats| ==> ImportsClause(Body, fats[i], Anchors[i])
      ensures hr == InvalidProgram ==> exists i :: 0 <= i < |fats| && Unanchorable(Body, fats[i])
    {
      hide Ring, Mirrors, TableOk, PushSum, ImportsClause, ClauseIs, Unanchorable;
      if clauses != [] {
        return InvalidOperation;
      }
      clauses, Anchors := [], [];
      for i := 0 to |fats|
        invariant Valid() && TableReady(table) && |Anchors| == i
        invariant forall j :: 0 <= j < i ==> ImportsClause(Body, fats[j], Anchors[j])
      {
        var ok, c, pos := ImportClause(fats[i], table);
        if !ok {
          return InvalidProgram;
        }
        clauses, Anchors := clauses + [c], Anchors + [pos];
      }
      hr := Ok;
    }

    /** Imports code and clauses of a method body. */
    method Import(bytes: seq<byte>, fats: seq<FatClause>) returns (hr: HResult)
      requires Valid() && Nodes == [] && Body == [] && Anchors == [] && |bytes| < MAX_SIZE
      modifies this`Nodes, this`Body, this`Anchors, this`clauses, this`maxStack, this`instrCount
      modifies sentinel`next, sentinel`prev
      ensures Valid() && forall i :: 0 <= i < |Nodes| ==> fresh(Nodes[i])
      ensures hr == Ok ==> Imports(bytes, Body) && Exportable(Body) && |Anchors| == |fats|
                           && forall i :: 0 <= i < |fats| ==> ImportsClause(Body, fats[i], Anchors[i])
      ensures hr != Ok ==> forall code :: Imports(bytes, code) ==>
                exists i :: 0 <= i < |fats| && Unanchorable(code, fats[i])
    {
      hide Ring, Mirrors, TableOk, PushSum, ImportsClause, Imports, ClausesAre, Unanchorable;
      var table;
      hr, table := ImportIL(bytes);
      if hr != Ok {
        return;
      }
      ghost var body := Body;
      ImportsExportable(bytes, body);
      hr := ImportEH(fats, table);
      if hr != Ok {
        forall code | Imports(bytes, code) ensures code == body {
          ImportIsUnique(bytes, code, body);
        }
      }
    }

    // ---- export

    /** The first k nodes hold their offsets. */
    ghost predicate OffsetsSet(k: nat)
      requires k <= |Nodes| == |Body| && OpcodesOk(Body)
      reads this`Nodes, this`Body, Nodes`offset
    {
      forall i :: 0 <= i < k ==> Nodes[i].offset == Offset(Body, i)
    }

    /** Every node, and the sentinel, holds its offset. */
    ghost predicate LaidOut()
      requires |Nodes| == |Body| && OpcodesOk(Body)
      reads this`Nodes, this`Body, Nodes`offset, sentinel`offset
    {
      OffsetsSet(|Nodes|) && sentinel.offset == CodeSize(Body)
    }

    /** What walking the ring from node k needs to know. */
    lemma Walk(k: int)
      requires Valid() && -1 <= k < |Nodes|
      ensures At(k).next == At(k + 1)
      ensures k + 1 < |Nodes| ==> At(k + 1) != sentinel
      ensures k >= 0 ==> Nodes[k] != sentinel && Holds(Nodes, sentinel, Body, k)
      ensures forall i :: 0 <= i < |Nodes| && i != k ==> Nodes[i] != At(k) || k < 0
    {
      assert LinkedAt(k);
    }

    /** The layout pass writes one node: opcode bytes, and the operand unless it is a branch target. */
    method EmitNode(instr: ILInstr, buffer: array<byte>, at: nat, ghost k: nat) returns (next: nat)
      requires Valid() && Exportable(Body) && k < |Nodes| && instr == Nodes[k]
      requires at == Offset(Body, k) && at + 10 <= buffer.Length
      modifies buffer
      ensures next == Offset(Body, k + 1) <= buffer.Length
      ensures FixedIs(Body, buffer[..], k) && buffer[..at] == old(buffer[..at])
    {
      hide Ring, PushSum, Le, LeadBytes, LeadSize, FixedIs, Pow256, Mirrors, FlagsOf;
      Walk(k);
      var mid := at + LeadSize(instr.opcode);
      assert mid + OperandSize(instr.opcode) == Offset(Body, k + 1) <= at + 10;
      Put(buffer, at, LeadBytes(instr.opcode));
      ghost var lead := buffer[..mid];
      next := EmitOperand(instr, buffer, mid, k);
      assert buffer[..][at..mid] == lead[at..] == LeadBytes(instr.opcode);
      assert buffer[..at] == lead[..at];
      assert buffer[..][mid..next] == buffer[mid..next];
      FixedFromParts(Body, buffer[..], k, mid);
    }

    /** The operand part of a node; room is left for the displacement of a branch. */
    method EmitOperand(instr: ILInstr, buffer: array<byte>, mid: nat, ghost k: nat) returns (next: nat)
      requires Valid() && Exportable(Body) && k < |Nodes| && instr == Nodes[k]
      requires Body[k].opcode == instr.opcode < TABLE_SIZE && mid + OperandSize(instr.opcode) <= buffer.Length
      modifies buffer
      ensures next == mid + OperandSize(instr.opcode) && buffer[..mid] == old(buffer[..mid])
      ensures IsBranch(instr.opcode) || buffer[mid..next] == OperandBytes(Body, k)
    {
      hide Ring, PushSum, Le, Pow256, Mirrors;
      Walk(k);
      assert OperandOk(Body, k);
      match FlagsOf(instr.opcode) {
        case Plain(size) =>
          Put(buffer, mid, Le(instr.operand.bits, size));
          next := mid + size;
        case ShortBranch =>
          next := mid + 1;
        case LongBranch =>
          next := mid + 4;
        case SwitchTable =>
          Put(buffer, mid, Le(instr.operand.bits, 4));
          next := mid + 4;
      }
    }

    method LayOutNode(instr: ILInstr, buffer: array<byte>, at: nat, ghost k: nat) returns (next: nat)
      requires Valid() && Exportable(Body) && k < |Nodes| && instr == Nodes[k]
      requires at == Offset(Body, k) && at + 10 <= buffer.Length
      requires FixedPrefix(Body, buffer[..], k) && OffsetsSet(k)
      modifies buffer, instr`offset
      ensures Offset(Body, k) <= next == Offset(Body, k + 1) <= Offset(Body, k) + 10
      ensures FixedPrefix(Body, buffer[..], k + 1) && OffsetsSet(k + 1)
    {
      hide PushSum, FixedIs, FlagsOf, Mirrors, SizeOf, LinkedAt;
      instr.offset := at;
      ghost var before := buffer[..];
      next := EmitNode(instr, buffer, at, k);
      assert before[..at] == buffer[..][..at];
      FixedPrefixStable(Body, before, buffer[..], k);
      OffsetGap(Body, k, k + 1);
    }

    /**
     The first pass of a round: gives every node its offset and writes what does not depend on offsets. The
     buffer is large enough for every list, so the index check never fires.
     */
    method LayOut(buffer: array<byte>) returns (ok: bool, size: nat, hasBranch: bool)
      requires Valid() && Exportable(Body) && buffer.Length == 10 * instrCount
      modifies buffer, sentinel`offset, Nodes`offset
      ensures ok && size == CodeSize(Body) <= buffer.Length
      ensures LaidOut() && FixedPrefix(Body, buffer[..], |Body|)
      ensures hasBranch == HasBranch(Body, |Body|)
    {
      hide PushSum, FixedIs, FlagsOf, Ring, Mirrors, FixedPrefix, SizeOf, Denotes, OffsetsSet;
      ok, size, hasBranch := true, 0, false;
      var instr := sentinel.next;
      ghost var k := 0;
      LayOutStarts(buffer);
      while instr != sentinel
        invariant ok && k <= |Nodes| && instr == At(k) && (k < |Nodes| ==> At(k) != sentinel)
        invariant size == Offset(Body, k) <= 10 * k
        invariant FixedPrefix(Body, buffer[..], k) && OffsetsSet(k)
        invariant hasBranch == HasBranch(Body, k)
        decreases |Nodes| - k
      {
        if size >= buffer.Length {
          ok := false;
          break;
        }
        Walk(k);
        if IsBranch(instr.opcode) {
          hasBranch := true;
        }
        size := LayOutNode(instr, buffer, size, k);
        k := k + 1;
        instr := instr.next;
      }
      SetSentinelOffset(size);
    }

    method SetSentinelOffset(size: nat)
      requires Valid() && OffsetsSet(|Nodes|) && size == CodeSize(Body)
      modifies sentinel`offset
      ensures LaidOut()
    {
      sentinel.offset := size;
    }

    lemma LayOutStarts(buffer: array<byte>)
      requires Valid() && Exportable(Body)
      ensures FixedPrefix(Body, buffer[..], 0) && OffsetsSet(0) && sentinel.next == At(0)
      ensures |Nodes| > 0 ==> At(0) != sentinel
    {
      Walk(-1);
    }

    /** Mid-round state: the ring holds the list with its first k instructions already widened. */
    ghost predicate Resolving(k: nat)
      reads this, sentinel, Nodes
    {
      && Ring()
      && |Nodes| == |Body| && Exportable(Body) && k <= |Body|
      && Mirrors(Nodes, sentinel, WidenPrefix(Body, k))
      && LaidOut()
    }

    /** What the resolving loop sees at node k: the opcode and operand of the round's list, and laid-out offsets. */
    lemma ResolvingAt(k: nat)
      requires Resolving(k) && k < |Body|
      ensures Nodes[k].opcode == Body[k].opcode && Nodes[k].offset == Offset(Body, k)
      ensures Nodes[k].next == At(k + 1) && At(k + 1).offset == Offset(Body, k + 1)
      ensures Nodes[k] != sentinel && (k + 1 < |Body| ==> At(k + 1) != sentinel)
      ensures OperandOk(Body, k)
      ensures IsBranch(Body[k].opcode) ==>
                && Nodes[k].operand.Branch?
                && Nodes[k].operand.target.offset == Offset(Body, Body[k].operand.to)
      ensures !IsBranch(Body[k].opcode) ==> Nodes[k].operand == Raw(Body[k].operand.w)
    {
      hide FlagsOf, WidenOne;
      assert LinkedAt(k) && OperandOk(Body, k);
      assert Holds(Nodes, sentinel, WidenPrefix(Body, k), k);
    }

    /** Widens a short branch; both opcode checks of the original always pass. */
    method WidenNode(instr: ILInstr) returns (ok: bool)
      requires IsShort(instr.opcode)
      modifies instr`opcode
      ensures ok && instr.opcode == LongForm(old(instr.opcode))
    {
      if instr.opcode == LEAVE_S {
        instr.opcode, ok := LEAVE, true;
      } else {
        ok := BR_S <= instr.opcode <= BLT_UN_S;
        if ok {
          instr.opcode := instr.opcode - BR_S + BR;
          ok := BR <= instr.opcode <= BLT_UN;
        }
      }
    }

    /** Node k leaves the round unchanged. */
    lemma ResolvingKeeps(k: nat)
      requires Resolving(k) && k < |Body| && !OutOfRange(Body, k)
      ensures Resolving(k + 1)
    {
      hide OutOfRange, FlagsOf, Holds, WidenPrefix;
      WidenStep(Body, k);
      assert WidenPrefix(Body, k + 1) == WidenPrefix(Body, k);
    }

    method WidenNodeInRing(instr: ILInstr, ghost k: nat) returns (ok: bool)
      requires Resolving(k) && k < |Body| && instr == Nodes[k] && OutOfRange(Body, k)
      modifies instr`opcode
      ensures ok && Resolving(k + 1)
    {
      hide FlagsOf, LinkedAt, OffsetsSet, WidenPrefix, Displacement;
      ResolvingAt(k);
      WidenStep(Body, k);
      ghost var before, after := WidenPrefix(Body, k), WidenPrefix(Body, k + 1);
      ok := WidenNode(instr);
      hide OutOfRange;
      forall i: nat | i < |Nodes| ensures Holds(Nodes, sentinel, after, i) {
        assert old(Holds(Nodes, sentinel, before, i));
      }
    }

    /** What the resolving pass knows of the buffer when it reaches node k. */
    ghost predicate Patched(bytes: seq<byte>, k: nat, again: bool)
      requires Exportable(Body) && k <= |Body|
      reads this`Body
    {
      FixedFrom(Body, bytes, k) && (!again ==> SlicesUpTo(Body, bytes, k))
    }

    /** Patches the displacement of branch k, whose operand field is `size` bytes at the end of its bytes. */
    method PatchNode(instr: ILInstr, buffer: array<byte>, field: seq<byte>, ghost k: nat, ghost again: bool)
      requires Resolving(k) && k < |Body| && instr == Nodes[k] && IsBranch(Body[k].opcode)
      requires CodeSize(Body) <= buffer.Length && Patched(buffer[..], k, again)
      requires field == OperandBytes(Body, k)
      modifies buffer
      ensures Patched(buffer[..], k + 1, again)
    {
      hide FixedFrom, SlicesUpTo, FlagsOf, Ring, Mirrors, OffsetsSet, OperandBytes;
      ResolvingAt(k);
      OffsetGap(Body, k + 1, |Body|);
      ghost var before := buffer[..];
      ghost var mid := Offset(Body, k) + LeadSize(Body[k].opcode);
      Put(buffer, instr.next.offset - |field|, field);
      assert buffer[..][..mid] == before[..mid];
      assert buffer[..][Offset(Body, k + 1)..] == before[Offset(Body, k + 1)..];
      assert buffer[..][mid..Offset(Body, k + 1)] == field;
      PatchCompletes(Body, before, buffer[..], k);
    }

    /** A node without displacement needs no patch. */
    lemma PatchedSkips(bytes: seq<byte>, k: nat, again: bool)
      requires Exportable(Body) && k < |Body| && Patched(bytes, k, again) && !IsBranch(Body[k].opcode)
      ensures Patched(bytes, k + 1, again)
    {
      hide FixedIs, SliceIs, FlagsOf;
      assert FixedIs(Body, bytes, k);
      FixedIsAll(Body, bytes, k);
    }

    /** One iteration of the resolving loop. */
    method ResolveNode(instr: ILInstr, buffer: array<byte>, switchBase: nat, ghost k: nat, ghost again: bool)
      returns (ok: bool, widened: bool, nextBase: nat)
      requires Resolving(k) && k < |Body| && instr == Nodes[k]
      requires CodeSize(Body) <= buffer.Length && Patched(buffer[..], k, again)
      requires switchBase == SwitchBase(Body, k)
      modifies buffer, instr`opcode
      ensures ok && widened == OutOfRange(Body, k) && nextBase == SwitchBase(Body, k + 1)
      ensures Resolving(k + 1) && Patched(buffer[..], k + 1, again || widened)
    {
      hide Ring, Mirrors, LaidOut, Patched, FlagsOf, SizeOf;
      ok, widened, nextBase := true, false, switchBase;
      ResolvingAt(k);
      if instr.opcode == SWITCH {
        nextBase := instr.offset + 1 + 4 * (instr.operand.bits + 1);
        PatchedSkips(buffer[..], k, again);
        ResolvingKeeps(k);
      } else if instr.opcode == SWITCH_ARG {
        ghost var d := instr.operand.target.offset - switchBase;
        assert d == Displacement(Body, k) && !OutOfRange(Body, k);
        PatchNode(instr, buffer, Le((instr.operand.target.offset - switchBase) % TWO_32, 4), k, again);
        ResolvingKeeps(k);
      } else if IsBranch(instr.opcode) {
        var delta := instr.operand.target.offset - instr.next.offset;
        assert delta == Displacement(Body, k);
        match FlagsOf(instr.opcode) {
          case ShortBranch =>
            if !(-128 <= delta <= 127) {
              widened := true;
              PatchedAgain(buffer[..], k, again);
              ok := WidenNodeInRing(instr, k);
            } else {
              PatchNode(instr, buffer, Le(delta % 256, 1), k, again);
              ResolvingKeeps(k);
            }
          case LongBranch =>
            PatchNode(instr, buffer, Le(delta % TWO_32, 4), k, again);
            ResolvingKeeps(k);
        }
      } else {
        PatchedSkips(buffer[..], k, again);
        ResolvingKeeps(k);
      }
    }

    lemma PatchedAgain(bytes: seq<byte>, k: nat, again: bool)
      requires Exportable(Body) && k < |Body| && Patched(bytes, k, again)
      ensures Patched(bytes, k + 1, true)
    {
      hide FixedIs, SliceIs, FlagsOf;
    }

    /** Some of the first k instructions does not reach. */
    ghost predicate AnyOutOfRange(k: nat)
      requires Exportable(Body) && k <= |Body|
      reads this`Body
    {
      exists i :: 0 <= i < k && OutOfRange(Body, i)
    }

    lemma AnyOutOfRangeStep(k: nat)
      requires Exportable(Body) && k < |Body|
      ensures AnyOutOfRange(k + 1) == (AnyOutOfRange(k) || OutOfRange(Body, k))
    {
      hide OutOfRange;
    }

    /**
     The second pass of a round: patches every displacement, or widens the short branches that do not reach.
     `again` asks for another round.
     */
    method ResolveBranches(buffer: array<byte>) returns (ok: bool, again: bool)
      requires Valid() && Exportable(Body) && LaidOut()
      requires CodeSize(Body) <= buffer.Length && FixedPrefix(Body, buffer[..], |Body|)
      modifies buffer, Nodes`opcode
      ensures ok && Resolving(|Body|) && Patched(buffer[..], |Body|, again) && again == AnyOutOfRange(|Body|)
    {
      hide Ring, Mirrors, LaidOut, Patched, FlagsOf, SizeOf, OutOfRange, WidenPrefix, FixedPrefix, SlicesUpTo, PushSum;
      ResolvingStarts(buffer[..]);
      ok, again := true, false;
      var switchBase := 0;
      var instr := sentinel.next;
      ghost var k := 0;
      while ok && instr != sentinel
        invariant ok && Resolving(k) && instr == At(k) && (k < |Nodes| ==> At(k) != sentinel)
        invariant switchBase == SwitchBase(Body, k)
        invariant Patched(buffer[..], k, again) && again == AnyOutOfRange(k)
        decreases |Nodes| - k
      {
        ResolvingAt(k);
        AnyOutOfRangeStep(k);
        var widened;
        ok, widened, switchBase := ResolveNode(instr, buffer, switchBase, k, again);
        again := again || widened;
        k := k + 1;
        instr := instr.next;
      }
    }

    /**
     One round of export: afterwards either the list has been widened and another round is due, or the buffer
     holds its encoding.
     */
    method Round(buffer: array<byte>) returns (ok: bool, again: bool, size: nat)
      requires Valid() && Exportable(Body) && buffer.Length == 10 * instrCount
      modifies this`Body, buffer, Nodes`opcode, Nodes`offset, sentinel`offset
      ensures ok && Valid() && Body == Widen(old(Body)) && again == !Fits(old(Body))
      ensures !again ==> Exported(buffer[..]) && size == CodeSize(old(Body))
    {
      hide FixedPrefix, FlagsOf, Resolving, Patched, OutOfRange, PushSum, Mirrors, Ring, LaidOut, Encode;
      var hasBranch;
      ok, size, hasBranch := LayOut(buffer);
      again := false;
      if ok && hasBranch {
        ok, again := ResolveBranches(buffer);
        ResolvingEnds(buffer[..], again);
      } else {
        NothingToResolve(buffer[..]);
      }
      Body := Widen(Body);
    }

    /** The buffer starts with the encoding of the list, and every node holds its offset in it. */
    ghost predicate Exported(bytes: seq<byte>)
      reads this`Nodes, this`Body, Nodes`offset, sentinel`offset
    {
      && |Nodes| == |Body| && Exportable(Body) && LaidOut()
      && CodeSize(Body) <= |bytes| && bytes[..CodeSize(Body)] == Encode(Body)
    }

    lemma NothingToResolve(bytes: seq<byte>)
      requires Valid() && Exportable(Body) && LaidOut() && !HasBranch(Body, |Body|)
      requires CodeSize(Body) <= |bytes| && FixedPrefix(Body, bytes, |Body|)
      ensures Fits(Body) && Widen(Body) == Body && Exported(bytes)
    {
      hide FixedIs, FlagsOf, SliceIs, Displacement;
      forall k | 0 <= k < |Body| ensures !IsBranch(Body[k].opcode) && SliceIs(Body, bytes, k) {
        NoBranches(Body, |Body|, k);
        assert FixedIs(Body, bytes, k);
        FixedIsAll(Body, bytes, k);
      }
      RoundProgress(Body);
      EncodingFromSlices(Body, bytes, |Body|);
    }

    lemma ResolvingStarts(bytes: seq<byte>)
      requires Valid() && Exportable(Body) && LaidOut() && FixedPrefix(Body, bytes, |Body|)
      ensures Resolving(0) && Patched(bytes, 0, false) && sentinel.next == At(0)
      ensures |Nodes| > 0 ==> At(0) != sentinel
    {
      hide FixedIs, FlagsOf;
      Walk(-1);
      assert WidenPrefix(Body, 0) == Body;
    }

    /** After the last node: the ring holds the widened list, and nothing changed unless another round is due. */
    lemma ResolvingEnds(bytes: seq<byte>, again: bool)
      requires Resolving(|Body|) && CodeSize(Body) <= |bytes| && Patched(bytes, |Body|, again)
      requires again == AnyOutOfRange(|Body|)
      ensures Ring() && Mirrors(Nodes, sentinel, Widen(Body)) && PushSum(Widen(Body)) == PushSum(Body)
      ensures again == !Fits(Body)
      ensures !again ==> Widen(Body) == Body && Exported(bytes)
    {
      hide FixedFrom, SliceIs, FlagsOf, Pushes, OutOfRange, Holds, Ring, OffsetsSet;
      RoundProgress(Body);
      WidenWidens(Body);
      WideningKeepsPushes(Body, Widen(Body));
      if !again {
        EncodingFromSlices(Body, bytes, |Body|);
      }
    }

    /** One exported clause, from the offsets its anchor nodes hold. */
    method ExportClauseAt(c: Clause<ILInstr>, ghost pos: Clause<int>) returns (fat: FatClause)
      requires Valid() && LaidOut() && ClauseIs(Nodes, sentinel, c, pos)
      ensures fat == ExportClause(Body, pos)
    {
      hide Ring, Mirrors, LaidOut, Offset, ClausesAre, PushSum;
      OffsetAt(pos.tryBegin);
      OffsetAt(pos.tryEnd);
      OffsetAt(pos.handlerBegin);
      NextOffsetAt(pos.handlerEnd);
      if pos.extra.Filter? {
        OffsetAt(pos.extra.start);
      }
      fat := FatClause(
        c.flags,
        c.tryBegin.offset,
        (c.tryEnd.offset - c.tryBegin.offset) % TWO_32,
        c.handlerBegin.offset,
        (c.handlerEnd.next.offset - c.handlerBegin.offset) % TWO_32,
        if !IsFilter(c.flags) then c.extra.token else c.extra.start.offset);
    }

    lemma NextOffsetAt(t: int)
      requires Valid() && LaidOut() && -1 <= t < |Nodes|
      ensures At(t).next == At(t + 1) && At(t + 1).offset == Offset(Body, t + 1)
    {
      assert LinkedAt(t);
      OffsetAt(t + 1);
    }

    lemma OffsetAt(t: nat)
      requires Valid() && LaidOut() && t <= |Nodes|
      ensures At(t).offset == Offset(Body, t)
    {
    }

    /** The rounds of export, repeated until every short branch reaches. */
    method Encoded(buffer: array<byte>) returns (hr: HResult, size: nat)
      requires Valid() && Exportable(Body) && buffer.Length == 10 * instrCount
      modifies this`Body, buffer, Nodes`opcode, Nodes`offset, sentinel`offset
      ensures Valid() && Body == Relax(old(Body))
      ensures hr == Ok && size == CodeSize(Body) && Exported(buffer[..])
    {
      hide Mirrors, Ring, LaidOut, Encode, OpcodesOk, PushSum, FlagsOf, Fits;
      size := 0;
      var again := true;
      while again
        invariant Valid() && Exportable(Body) && Relax(Body) == Relax(old(Body))
        invariant !again ==> Body == Relax(Body) && size == CodeSize(Body) && Exported(buffer[..])
        decreases ShortCount(Body), again
      {
        RoundProgress(Body);
        WidenWidens(Body);
        var ok;
        ok, again, size := Round(buffer);
        if !ok {
          return IndexOutOfRange, size;
        }
      }
      hr := Ok;
    }

    method ExportClauses() returns (fats: seq<FatClause>)
      requires Valid() && LaidOut()
      ensures |fats| == |Anchors|
      ensures forall i :: 0 <= i < |Anchors| ==> fats[i] == ExportClause(Body, Anchors[i])
    {
      fats := [];
      for i := 0 to |clauses|
        invariant |fats| == i
        invariant forall j :: 0 <= j < i ==> fats[j] == ExportClause(Body, Anchors[j])
      {
        assert ClauseIs(Nodes, sentinel, clauses[i], Anchors[i]);
        var fat := ExportClauseAt(clauses[i], Anchors[i]);
        fats := fats + [fat];
      }
    }

    /**
     Emits the body: the list relaxed and encoded, and with a fat header the depth and the clauses. The only
     failure left is a body too large for a tiny header.
     */
    method Export() returns (hr: HResult, body: MethodBody)
      requires Valid() && Exportable(Body)
      modifies this`Body, Nodes`opcode, Nodes`offset, sentinel`offset
      ensures Valid() && Body == Relax(old(Body))
      ensures hr == if tinyHeader && CodeSize(Body) >= 64 then Fail else Ok
      ensures hr == Ok ==> body.code == Encode(Body)
      ensures hr == Ok && !tinyHeader ==> body.maxStack == maxStack == HeaderStack + PushSum(old(Body))
      ensures hr == Ok && !tinyHeader ==>
                |body.clauses| == |Anchors|
                && forall i :: 0 <= i < |Anchors| ==> body.clauses[i] == ExportClause(Body, Anchors[i])
    {
      hide Ring, Mirrors, ClausesAre, PushSum, LaidOut, Encode, FlagsOf, Fits;
      WideningKeepsPushes(Body, Relax(Body));
      var buffer := new byte[10 * instrCount];
      var size;
      hr, size := Encoded(buffer);
      body := MethodBody([], 0, []);
      if hr != Ok {
        return;
      }
      if tinyHeader {
        if size >= 64 {
          return Fail, body;
        }
        body := MethodBody(buffer[..][..size], 0, []);
      } else {
        var fats := ExportClauses();
        body := MethodBody(buffer[..][..size], maxStack, fats);
      }
    }
  }

  /**
   Importing a body and exporting it unedited: the code and the clauses come back unchanged, and the declared
   depth only grows.
   */
  method ExportUntouched(bytes: seq<byte>, fats: seq<FatClause>, headerStack: nat)
    returns (imported: HResult, exported: HResult, body: MethodBody)
    requires |bytes| < MAX_SIZE && forall i :: 0 <= i < |fats| ==> FatOk(fats[i])
    ensures imported == Ok <==> exists code :: Imports(bytes, code)
                                              && forall i :: 0 <= i < |fats| ==> !Unanchorable(code, fats[i])
    ensures imported == Ok ==> exported == Ok && body.code == bytes && body.clauses == fats
                               && body.maxStack >= headerStack
  {
    hide Imports, ImportsClause, FlagsOf, Fits, SwitchesOk;
    var rewriter := new ILRewriter(headerStack, false);
    body, exported := MethodBody([], 0, []), InvalidProgram;
    imported := rewriter.Import(bytes, fats);
    if imported == Ok {
      ghost var code := rewriter.Body;
      ImportExportRoundTrip(bytes, code);
      forall i | 0 <= i < |fats| ensures ExportClause(code, rewriter.Anchors[i]) == fats[i]
                                         && !Unanchorable(code, fats[i])
      {
        assert ImportsClause(code, fats[i], rewriter.Anchors[i]);
        ClauseRoundTrip(code, fats[i], rewriter.Anchors[i]);
      }
      exported, body := rewriter.Export();
    }
  }
}
