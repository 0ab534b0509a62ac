/** Editing an instruction list as a value: insertions move the branches and anchors that point past them. */
module ILEditing {
  import opened OpCodes
  import opened ILCode

  /** Where a position ends up when a node is inserted at p: it stays with the node it names. */
  function Moved(t: int, p: nat): int {
    if t >= p then t + 1 else t
  }

  function MovedOperand(o: Operand, p: nat): Operand {
    match o
    case Bits(w) => o
    case Target(t) => Target(if t >= p then t + 1 else t)
  }

  function MovedInstr(i: Instr, p: nat): Instr {
    Instr(i.opcode, MovedOperand(i.operand, p))
  }

  /** The list after inserting `instr` (written against the old positions) at position p. */
  function InsertAt(code: Code, p: nat, instr: Instr): (r: Code)
    requires p <= |code|
    ensures |r| == |code| + 1
  {
    seq(|code| + 1, i requires 0 <= i < |code| + 1 => MovedInstr(SourceOf(code, p, instr, i), p))
  }

  /** The instruction that position i of the new list comes from. */
  function SourceOf(code: Code, p: nat, instr: Instr, i: nat): Instr
    requires p <= |code| && i <= |code|
  {
    if i < p then code[i] else if i == p then instr else code[i - 1]
  }

  /** Stack pushes of a whole list, as the rewriter accumulates them. */
  function PushSum(code: Code): nat
    requires OpcodesOk(code)
  {
    if code == [] then 0 else PushSum(code[..|code| - 1]) + Pushes(code[|code| - 1].opcode)
  }

  lemma {:induction false} PushSumOfSameOpcodes(a: Code, b: Code)
    requires OpcodesOk(a) && |a| == |b|
    requires forall k :: 0 <= k < |a| ==> b[k].opcode < TABLE_SIZE && Pushes(b[k].opcode) == Pushes(a[k].opcode)
    ensures OpcodesOk(b) && PushSum(b) == PushSum(a)
  {
    hide Pushes;
    if a != [] {
      PushSumOfSameOpcodes(a[..|a| - 1], b[..|b| - 1]);
    }
  }

  lemma {:induction false} PushSumOfInsert(code: Code, p: nat, instr: Instr)
    requires OpcodesOk(code) && p <= |code| && instr.opcode < TABLE_SIZE
    ensures OpcodesOk(InsertAt(code, p, instr))
    ensures PushSum(InsertAt(code, p, instr)) == PushSum(code) + Pushes(instr.opcode)
  {
    hide Pushes, SourceOf;
    var r := InsertAt(code, p, instr);
    var n := |code|;
    forall k | 0 <= k <= n ensures r[k].opcode == SourceOf(code, p, instr, k).opcode < TABLE_SIZE {
      SourceOpcode(code, p, instr, k);
    }
    if p == n {
      forall k | 0 <= k < n ensures r[..n][k].opcode == code[k].opcode {
        SourceOpcode(code, p, instr, k);
      }
      SourceOpcode(code, p, instr, n);
      PushSumOfSameOpcodes(code, r[..n]);
    } else {
      var front := code[..n - 1];
      PushSumOfInsert(front, p, instr);
      var rf := InsertAt(front, p, instr);
      forall k | 0 <= k < n ensures rf[k].opcode == r[..n][k].opcode {
        SourceOpcode(code, p, instr, k);
        SourceOpcode(front, p, instr, k);
      }
      PushSumOfSameOpcodes(rf, r[..n]);
      SourceOpcode(code, p, instr, n);
    }
  }

  lemma SourceOpcode(code: Code, p: nat, instr: Instr, i: nat)
    requires OpcodesOk(code) && p <= |code| && i <= |code| && instr.opcode < TABLE_SIZE
    ensures SourceOf(code, p, instr, i).opcode < TABLE_SIZE
    ensures InsertAt(code, p, instr)[i].opcode == SourceOf(code, p, instr, i).opcode
    ensures i < p ==> SourceOf(code, p, instr, i) == code[i]
    ensures i == p ==> SourceOf(code, p, instr, i) == instr
    ensures i > p ==> SourceOf(code, p, instr, i) == code[i - 1]
  {
  }

  /** No branch has been resolved yet. */
  predicate NoTargets(code: Code) {
    forall k :: 0 <= k < |code| ==> code[k].operand.Bits?
  }

  lemma AppendedValue(code: Code, instr: Instr)
    requires NoTargets(code) && instr.operand.Bits?
    ensures InsertAt(code, |code|, instr) == code + [instr] && NoTargets(code + [instr])
  {
    forall i | 0 <= i <= |code| ensures InsertAt(code, |code|, instr)[i] == (code + [instr])[i] {
    }
  }
}
