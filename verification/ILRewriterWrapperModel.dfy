/** The emission helpers: each creates a node, fills it in and splices it in before the cursor. */
module ILRewriterWrapperModel {
  import opened OpCodes
  import opened ILCode
  import opened ILEditing
  import opened ExceptionTable
  import opened ILRewriterModel
  import opened CallTargetCode

  /** A node holds an instruction without a branch target. */
  ghost predicate NodeIs(node: ILInstr, i: Instr)
    reads node`opcode, node`operand
  {
    i.operand.Bits? && node.opcode == i.opcode && node.operand == Raw(i.operand.w)
  }

  ghost predicate NodesAre(nodes: seq<ILInstr>, code: Code)
    reads nodes`opcode, nodes`operand
  {
    |nodes| == |code| && forall i :: 0 <= i < |nodes| ==> NodeIs(nodes[i], code[i])
  }

  class ILRewriterWrapper {
    const rewriter: ILRewriter
    var cursor: ILInstr
    /** The list: what is in front of the place the cursor was set to, what was emitted there, and the rest. */
    ghost var Front: seq<ILInstr>
    ghost var Emitted: seq<ILInstr>
    ghost var Back: seq<ILInstr>
    /** What the emitted nodes hold. */
    ghost var Instrs: Code

    ghost predicate Valid()
      reads this, rewriter, rewriter.sentinel, rewriter.Nodes, Emitted
    {
      && rewriter.Valid()
      && rewriter.Nodes == Front + Emitted + Back
      && cursor == (if Back == [] then rewriter.sentinel else Back[0])
      && NodesAre(Emitted, Instrs)
    }

    constructor (rw: ILRewriter, instr: ILInstr, ghost k: nat)
      requires rw.Valid() && k <= |rw.Nodes| && instr == rw.At(k)
      ensures Valid() && rewriter == rw && Front == rw.Nodes[..k] && Back == rw.Nodes[k..]
      ensures Emitted == [] && Instrs == []
    {
      rewriter, cursor := rw, instr;
      Front, Emitted, Back, Instrs := rw.Nodes[..k], [], rw.Nodes[k..], [];
    }

    method SetILPosition(instr: ILInstr, ghost k: nat)
      requires rewriter.Valid() && k <= |rewriter.Nodes| && instr == rewriter.At(k)
      modifies this
      ensures Valid() && Front == rewriter.Nodes[..k] && Back == rewriter.Nodes[k..]
      ensures Emitted == [] && Instrs == [] && cursor == instr
    {
      cursor := instr;
      Front, Emitted, Back, Instrs := rewriter.Nodes[..k], [], rewriter.Nodes[k..], [];
    }

    /** What every helper does with its opcode and argument. */
    method Emit(opcode: nat, bits: nat) returns (instr: ILInstr)
      requires Valid() && opcode < TABLE_SIZE
      modifies this`Emitted, this`Instrs
      modifies rewriter`Nodes, rewriter`Body, rewriter`Anchors, rewriter`maxStack, rewriter`instrCount
      modifies rewriter.sentinel`next, rewriter.sentinel`prev, rewriter.Nodes`next, rewriter.Nodes`prev
      ensures Valid() && fresh(instr) && Emitted == old(Emitted) + [instr]
      ensures forall j :: 0 <= j < |rewriter.Nodes| ==>
                rewriter.Nodes[j] in old(rewriter.Nodes) || fresh(rewriter.Nodes[j])
      ensures Instrs == old(Instrs) + [Instr(opcode, Bits(bits))]
    {
      hide ILRewriter.Ring, Mirrors, ClausesAre, PushSum, InsertAt, MovedClauses;
      instr := rewriter.NewILInstr();
      instr.opcode := opcode;
      instr.operand := Raw(bits);
      rewriter.InsertBefore(cursor, instr, |Front| + |Emitted|, Bits(bits));
      Emitted := Emitted + [instr];
      Instrs := Instrs + [Instr(opcode, Bits(bits))];
    }

    method LoadNull() returns (instr: ILInstr)
      requires Valid()
      modifies this`Emitted, this`Instrs
      modifies rewriter`Nodes, rewriter`Body, rewriter`Anchors, rewriter`maxStack, rewriter`instrCount
      modifies rewriter.sentinel`next, rewriter.sentinel`prev, rewriter.Nodes`next, rewriter.Nodes`prev
      ensures Valid() && fresh(instr) && Emitted == old(Emitted) + [instr]
      ensures forall j :: 0 <= j < |rewriter.Nodes| ==>
                rewriter.Nodes[j] in old(rewriter.Nodes) || fresh(rewriter.Nodes[j])
      ensures Instrs == old(Instrs) + [Bare(LDNULL)]
    {
      hide Valid;
      instr := Emit(LDNULL, 0);
    }

    method LoadInt32(value: int) returns (instr: ILInstr)
      requires Valid()
      modifies this`Emitted, this`Instrs
      modifies rewriter`Nodes, rewriter`Body, rewriter`Anchors, rewriter`maxStack, rewriter`instrCount
      modifies rewriter.sentinel`next, rewriter.sentinel`prev, rewriter.Nodes`next, rewriter.Nodes`prev
      ensures Valid() && fresh(instr) && Emitted == old(Emitted) + [instr]
      ensures forall j :: 0 <= j < |rewriter.Nodes| ==>
                rewriter.Nodes[j] in old(rewriter.Nodes) || fresh(rewriter.Nodes[j])
      ensures Instrs == old(Instrs) + [CallTargetCode.LoadInt32(value)]
    {
      hide Valid;
      if 0 <= value <= 8 {
        instr := Emit(LDC_I4_0 + value, 0);
      } else if -128 <= value <= 127 {
        instr := Emit(LDC_I4_S, value % 256);
      } else {
        instr := Emit(LDC_I4, value % 0x1_0000_0000);
      }
    }

    method LoadArgument(index: nat) returns (instr: ILInstr)
      requires Valid()
      modifies this`Emitted, this`Instrs
      modifies rewriter`Nodes, rewriter`Body, rewriter`Anchors, rewriter`maxStack, rewriter`instrCount
      modifies rewriter.sentinel`next, rewriter.sentinel`prev, rewriter.Nodes`next, rewriter.Nodes`prev
      ensures Valid() && fresh(instr) && Emitted == old(Emitted) + [instr]
      ensures forall j :: 0 <= j < |rewriter.Nodes| ==>
                rewriter.Nodes[j] in old(rewriter.Nodes) || fresh(rewriter.Nodes[j])
      ensures Instrs == old(Instrs) + [CallTargetCode.LoadArgument(index)]
    {
      hide Valid;
      var i := index % 0x1_0000;
      if i <= 3 {
        instr := Emit(LDARG_0 + i, 0);
      } else if i <= 255 {
        instr := Emit(LDARG_S, i);
      } else {
        instr := Emit(LDARG, i);
      }
    }

    method Box(token: nat) returns (instr: ILInstr)
      requires Valid()
      modifies this`Emitted, this`Instrs
      modifies rewriter`Nodes, rewriter`Body, rewriter`Anchors, rewriter`maxStack, rewriter`instrCount
      modifies rewriter.sentinel`next, rewriter.sentinel`prev, rewriter.Nodes`next, rewriter.Nodes`prev
      ensures Valid() && fresh(instr) && Emitted == old(Emitted) + [instr]
      ensures forall j :: 0 <= j < |rewriter.Nodes| ==>
                rewriter.Nodes[j] in old(rewriter.Nodes) || fresh(rewriter.Nodes[j])
      ensures Instrs == old(Instrs) + [WithToken(BOX, token)]
    {
      hide Valid;
      instr := Emit(BOX, token);
    }

    method LoadObj(token: nat) returns (instr: ILInstr)
      requires Valid()
      modifies this`Emitted, this`Instrs
      modifies rewriter`Nodes, rewriter`Body, rewriter`Anchors, rewriter`maxStack, rewriter`instrCount
      modifies rewriter.sentinel`next, rewriter.sentinel`prev, rewriter.Nodes`next, rewriter.Nodes`prev
      ensures Valid() && fresh(instr) && Emitted == old(Emitted) + [instr]
      ensures forall j :: 0 <= j < |rewriter.Nodes| ==>
                rewriter.Nodes[j] in old(rewriter.Nodes) || fresh(rewriter.Nodes[j])
      ensures Instrs == old(Instrs) + [WithToken(LDOBJ, token)]
    {
      hide Valid;
      instr := Emit(LDOBJ, token);
    }

    method CallMember(member: nat, isVirtual: bool) returns (instr: ILInstr)
      requires Valid()
      modifies this`Emitted, this`Instrs
      modifies rewriter`Nodes, rewriter`Body, rewriter`Anchors, rewriter`maxStack, rewriter`instrCount
      modifies rewriter.sentinel`next, rewriter.sentinel`prev, rewriter.Nodes`next, rewriter.Nodes`prev
      ensures Valid() && fresh(instr) && Emitted == old(Emitted) + [instr]
      ensures forall j :: 0 <= j < |rewriter.Nodes| ==>
                rewriter.Nodes[j] in old(rewriter.Nodes) || fresh(rewriter.Nodes[j])
      ensures Instrs == old(Instrs) + [WithToken(if isVirtual then CALLVIRT else CALL, member)]
    {
      hide Valid;
      instr := Emit(if isVirtual then CALLVIRT else CALL, member);
    }

    method Duplicate() returns (instr: ILInstr)
      requires Valid()
      modifies this`Emitted, this`Instrs
      modifies rewriter`Nodes, rewriter`Body, rewriter`Anchors, rewriter`maxStack, rewriter`instrCount
      modifies rewriter.sentinel`next, rewriter.sentinel`prev, rewriter.Nodes`next, rewriter.Nodes`prev
      ensures Valid() && fresh(instr) && Emitted == old(Emitted) + [instr]
      ensures forall j :: 0 <= j < |rewriter.Nodes| ==>
                rewriter.Nodes[j] in old(rewriter.Nodes) || fresh(rewriter.Nodes[j])
      ensures Instrs == old(Instrs) + [Bare(DUP)]
    {
      hide Valid;
      instr := Emit(DUP, 0);
    }

    method EndLoadValueIntoArray() returns (instr: ILInstr)
      requires Valid()
      modifies this`Emitted, this`Instrs
      modifies rewriter`Nodes, rewriter`Body, rewriter`Anchors, rewriter`maxStack, rewriter`instrCount
      modifies rewriter.sentinel`next, rewriter.sentinel`prev, rewriter.Nodes`next, rewriter.Nodes`prev
      ensures Valid() && fresh(instr) && Emitted == old(Emitted) + [instr]
      ensures forall j :: 0 <= j < |rewriter.Nodes| ==>
                rewriter.Nodes[j] in old(rewriter.Nodes) || fresh(rewriter.Nodes[j])
      ensures Instrs == old(Instrs) + [Bare(STELEM_REF)]
    {
      hide Valid;
      instr := Emit(STELEM_REF, 0);
    }

    method Rethrow() returns (instr: ILInstr)
      requires Valid()
      modifies this`Emitted, this`Instrs
      modifies rewriter`Nodes, rewriter`Body, rewriter`Anchors, rewriter`maxStack, rewriter`instrCount
      modifies rewriter.sentinel`next, rewriter.sentinel`prev, rewriter.Nodes`next, rewriter.Nodes`prev
      ensures Valid() && fresh(instr) && Emitted == old(Emitted) + [instr]
      ensures forall j :: 0 <= j < |rewriter.Nodes| ==>
                rewriter.Nodes[j] in old(rewriter.Nodes) || fresh(rewriter.Nodes[j])
      ensures Instrs == old(Instrs) + [Bare(RETHROW)]
    {
      hide Valid;
      instr := Emit(RETHROW, 0);
    }

    method EndFinally() returns (instr: ILInstr)
      requires Valid()
      modifies this`Emitted, this`Instrs
      modifies rewriter`Nodes, rewriter`Body, rewriter`Anchors, rewriter`maxStack, rewriter`instrCount
      modifies rewriter.sentinel`next, rewriter.sentinel`prev, rewriter.Nodes`next, rewriter.Nodes`prev
      ensures Valid() && fresh(instr) && Emitted == old(Emitted) + [instr]
      ensures forall j :: 0 <= j < |rewriter.Nodes| ==>
                rewriter.Nodes[j] in old(rewriter.Nodes) || fresh(rewriter.Nodes[j])
      ensures Instrs == old(Instrs) + [Bare(ENDFINALLY)]
    {
      hide Valid;
      instr := Emit(ENDFINALLY, 0);
    }

    method CreateInstr(opcode: nat) returns (instr: ILInstr)
      requires Valid() && opcode < TABLE_SIZE
      modifies this`Emitted, this`Instrs
      modifies rewriter`Nodes, rewriter`Body, rewriter`Anchors, rewriter`maxStack, rewriter`instrCount
      modifies rewriter.sentinel`next, rewriter.sentinel`prev, rewriter.Nodes`next, rewriter.Nodes`prev
      ensures Valid() && fresh(instr) && Emitted == old(Emitted) + [instr]
      ensures forall j :: 0 <= j < |rewriter.Nodes| ==>
                rewriter.Nodes[j] in old(rewriter.Nodes) || fresh(rewriter.Nodes[j])
      ensures Instrs == old(Instrs) + [Bare(opcode)]
    {
      hide Valid;
      instr := Emit(opcode, 0);
    }

    method StLocal(index: nat) returns (instr: ILInstr)
      requires Valid()
      modifies this`Emitted, this`Instrs
      modifies rewriter`Nodes, rewriter`Body, rewriter`Anchors, rewriter`maxStack, rewriter`instrCount
      modifies rewriter.sentinel`next, rewriter.sentinel`prev, rewriter.Nodes`next, rewriter.Nodes`prev
      ensures Valid() && fresh(instr) && Emitted == old(Emitted) + [instr]
      ensures forall j :: 0 <= j < |rewriter.Nodes| ==>
                rewriter.Nodes[j] in old(rewriter.Nodes) || fresh(rewriter.Nodes[j])
      ensures Instrs == old(Instrs) + [StoreLocal(index)]
    {
      hide Valid;
      if index <= 3 {
        instr := Emit(STLOC_0 + index, 0);
      } else if index <= 255 {
        instr := Emit(STLOC_S, index);
      } else {
        instr := Emit(STLOC, index % 0x1_0000);
      }
    }

    method LoadLocal(index: nat) returns (instr: ILInstr)
      requires Valid()
      modifies this`Emitted, this`Instrs
      modifies rewriter`Nodes, rewriter`Body, rewriter`Anchors, rewriter`maxStack, rewriter`instrCount
      modifies rewriter.sentinel`next, rewriter.sentinel`prev, rewriter.Nodes`next, rewriter.Nodes`prev
      ensures Valid() && fresh(instr) && Emitted == old(Emitted) + [instr]
      ensures forall j :: 0 <= j < |rewriter.Nodes| ==>
                rewriter.Nodes[j] in old(rewriter.Nodes) || fresh(rewriter.Nodes[j])
      ensures Instrs == old(Instrs) + [CallTargetCode.LoadLocal(index)]
    {
      hide Valid;
      if index <= 3 {
        instr := Emit(LDLOC_0 + index, 0);
      } else if index <= 255 {
        instr := Emit(LDLOC_S, index);
      } else {
        instr := Emit(LDLOC, index % 0x1_0000);
      }
    }

    method LoadLocalAddress(index: nat) returns (instr: ILInstr)
      requires Valid()
      modifies this`Emitted, this`Instrs
      modifies rewriter`Nodes, rewriter`Body, rewriter`Anchors, rewriter`maxStack, rewriter`instrCount
      modifies rewriter.sentinel`next, rewriter.sentinel`prev, rewriter.Nodes`next, rewriter.Nodes`prev
      ensures Valid() && fresh(instr) && Emitted == old(Emitted) + [instr]
      ensures forall j :: 0 <= j < |rewriter.Nodes| ==>
                rewriter.Nodes[j] in old(rewriter.Nodes) || fresh(rewriter.Nodes[j])
      ensures Instrs == old(Instrs) + [CallTargetCode.LoadLocalAddress(index)]
    {
      hide Valid;
      if index <= 255 {
        instr := Emit(LDLOCA_S, index);
      } else {
        instr := Emit(LDLOCA, index % 0x1_0000);
      }
    }

    method CreateArray(token: nat, size: int)
      requires Valid()
      modifies this`Emitted, this`Instrs
      modifies rewriter`Nodes, rewriter`Body, rewriter`Anchors, rewriter`maxStack, rewriter`instrCount
      modifies rewriter.sentinel`next, rewriter.sentinel`prev, rewriter.Nodes`next, rewriter.Nodes`prev
      ensures Valid() && old(Emitted) <= Emitted
      ensures forall i :: |old(Emitted)| <= i < |Emitted| ==> fresh(Emitted[i])
      ensures forall j :: 0 <= j < |rewriter.Nodes| ==>
                rewriter.Nodes[j] in old(rewriter.Nodes) || fresh(rewriter.Nodes[j])
      ensures Instrs == old(Instrs) + [CallTargetCode.LoadInt32(size), WithToken(NEWARR, token)]
    {
      hide Valid;
      var _ := LoadInt32(size);
      var _ := Emit(NEWARR, token);
    }

    method BeginLoadValueIntoArray(index: int)
      requires Valid()
      modifies this`Emitted, this`Instrs
      modifies rewriter`Nodes, rewriter`Body, rewriter`Anchors, rewriter`maxStack, rewriter`instrCount
      modifies rewriter.sentinel`next, rewriter.sentinel`prev, rewriter.Nodes`next, rewriter.Nodes`prev
      ensures Valid() && old(Emitted) <= Emitted
      ensures forall i :: |old(Emitted)| <= i < |Emitted| ==> fresh(Emitted[i])
      ensures forall j :: 0 <= j < |rewriter.Nodes| ==>
                rewriter.Nodes[j] in old(rewriter.Nodes) || fresh(rewriter.Nodes[j])
      ensures Instrs == old(Instrs) + [Bare(DUP), CallTargetCode.LoadInt32(index)]
    {
      hide Valid;
      var _ := Duplicate();
      var _ := LoadInt32(index);
    }
  }
}
