/** What the size-classed instructions the helpers emit stand for, and whether a shorter one would do. */
module ShortForms {
  import opened Bytes
  import opened OpCodes
  import opened ILCode
  import opened ILMachine
  import opened CallTargetCode

  /** The instruction pushes a 32-bit constant. */
  predicate LoadsInt(i: Instr) {
    && (LDC_I4_M1 <= i.opcode <= LDC_I4_0 + 8 || i.opcode == LDC_I4_S || i.opcode == LDC_I4)
    && i.operand.Bits? && i.operand.w < Pow256(OperandSize(i.opcode))
  }

  /** Which one: the one-byte forms carry it in the opcode, the others as a signed operand. */
  function IntOf(i: Instr): int
    requires LoadsInt(i)
  {
    if i.opcode <= LDC_I4_0 + 8 then i.opcode - LDC_I4_0
    else if i.opcode == LDC_I4_S then if i.operand.w < 0x80 then i.operand.w else i.operand.w - 0x100
    else if i.operand.w < 0x8000_0000 then i.operand.w else i.operand.w - 0x1_0000_0000
  }

  lemma IntSizes(op: nat)
    requires LDC_I4_M1 <= op <= LDC_I4
    ensures op < LDC_I4_S ==> OperandSize(op) == 0
    ensures OperandSize(LDC_I4_S) == 1 && OperandSize(LDC_I4) == 4
    ensures LeadSize(op) == 1 && SizeOf(op) == 1 + OperandSize(op)
    ensures Pow256(0) == 1 && Pow256(1) == 0x100 && Pow256(4) == 0x1_0000_0000
  {
    Pow256Values();
  }

  /** A 32-bit constant is loaded as itself. */
  lemma LoadInt32Loads(value: int)
    requires -0x8000_0000 <= value < 0x8000_0000
    ensures LoadsInt(LoadInt32(value)) && IntOf(LoadInt32(value)) == value
  {
    hide OperandSize, Pow256;
    IntSizes(LoadInt32(value).opcode);
  }

  /** No instruction that loads the same constant is shorter, unless the constant is -1: ldc.i4.m1 is not used. */
  lemma LoadInt32ShortestIff(value: int)
    requires -0x8000_0000 <= value < 0x8000_0000
    ensures (forall i :: LoadsInt(i) && IntOf(i) == value ==> SizeOf(LoadInt32(value).opcode) <= SizeOf(i.opcode))
            <==> value != -1
  {
    hide OperandSize, Pow256, LeadSize, SizeOf;
    IntSizes(LoadInt32(value).opcode);
    if value == -1 {
      IntSizes(LDC_I4_M1);
      assert LoadsInt(Bare(LDC_I4_M1)) && IntOf(Bare(LDC_I4_M1)) == -1;
    } else {
      forall i | LoadsInt(i) && IntOf(i) == value ensures SizeOf(LoadInt32(value).opcode) <= SizeOf(i.opcode) {
        IntSizes(i.opcode);
      }
    }
  }

  /** Loads, stores and addresses of a local are of that local. */
  lemma LocalsNamed(index: nat)
    requires index < 0x1_0000
    ensures LocalUseOf(StoreLocal(index)) == Store(index) && LocalUseOf(LoadLocal(index)) == Load(index)
    ensures LocalUseOf(LoadLocalAddress(index)) == Address(index)
  {
  }

  predicate FitsItsField(i: Instr) {
    i.opcode < TABLE_SIZE && i.operand.Bits? && i.operand.w < Pow256(OperandSize(i.opcode))
  }

  lemma LocalSizes(op: nat)
    requires op < TABLE_SIZE
    requires LDLOC_0 <= op < LDLOC_0 + 8 || op in {LDLOC_S, LDLOCA_S, STLOC_S, LDLOC, LDLOCA, STLOC}
    ensures SizeOf(op) == if op < LDLOC_S then 1 else if op <= STLOC_S then 2 else 4
    ensures op == LDLOC_S || op == LDLOCA_S || op == STLOC_S ==> Pow256(OperandSize(op)) == 0x100
  {
    Pow256Values();
  }

  lemma OwnSizes(index: nat)
    requires index < 0x1_0000
    ensures SizeOf(StoreLocal(index).opcode) == SizeOf(LoadLocal(index).opcode)
            == if index <= 3 then 1 else if index <= 255 then 2 else 4
    ensures SizeOf(LoadLocalAddress(index).opcode) == if index <= 255 then 2 else 4
  {
    LocalSizes(StoreLocal(index).opcode);
    LocalSizes(LoadLocal(index).opcode);
    LocalSizes(LoadLocalAddress(index).opcode);
    hide SizeOf, OperandSize, FlagsOf, LeadSize;
  }

  /** No instruction that uses the same local the same way is shorter. */
  lemma LocalsShortest(index: nat, i: Instr)
    requires index < 0x1_0000 && FitsItsField(i)
    ensures LocalUseOf(i) == Store(index) ==> SizeOf(StoreLocal(index).opcode) <= SizeOf(i.opcode)
    ensures LocalUseOf(i) == Load(index) ==> SizeOf(LoadLocal(index).opcode) <= SizeOf(i.opcode)
    ensures LocalUseOf(i) == Address(index) ==> SizeOf(LoadLocalAddress(index).opcode) <= SizeOf(i.opcode)
  {
    hide SizeOf, OperandSize, Pow256, StoreLocal, LoadLocal, LoadLocalAddress;
    OwnSizes(index);
    if !LocalUseOf(i).NoLocal? {
      LocalSizes(i.opcode);
    }
  }
}
