/** One body spelled out: every kind of operand the other modules only speak of in general. */
module BodyExample {
  import opened Bytes
  import opened OpCodes
  import opened OpcodeTable
  import opened ILCode
  import opened Relaxation
  import opened ILFormat
  import opened ILReimport

  const BRTRUE_S: nat := 0x2D
  const POP: nat := 0x26

  /** ldarg.0; brtrue.s to the switch; ldc.i4 0x12345678; pop; switch to the start or behind it; rethrow. */
  const CODE: Code := [
    Instr(LDARG_0, Bits(0)), Instr(BRTRUE_S, Target(4)), Instr(LDC_I4, Bits(0x1234_5678)), Instr(POP, Bits(0)),
    Instr(SWITCH, Bits(2)), Instr(SWITCH_ARG, Target(0)), Instr(SWITCH_ARG, Target(7)), Instr(RETHROW, Bits(0))]

  const BYTES: seq<byte> := [
    0x02, 0x2D, 0x06, 0x20, 0x78, 0x56, 0x34, 0x12, 0x26, 0x45, 0x02, 0x00, 0x00, 0x00, 0xEA, 0xFF, 0xFF, 0xFF, 0x00,
    0x00, 0x00, 0x00, 0xFE, 0x1A]

  lemma Names()
    ensures RowOf(BRTRUE_S).name == "brtrue.s" && RowOf(POP).name == "pop"
  {
  }

  lemma CodeFits()
    ensures Exportable(CODE)
  {
    Pow256Values();
    hide Pow256;
  }

  lemma Offsets()
    requires OpcodesOk(CODE)
    ensures Offset(CODE, 0) == 0 && Offset(CODE, 1) == 1 && Offset(CODE, 2) == 3 && Offset(CODE, 3) == 8
    ensures Offset(CODE, 4) == 9 && Offset(CODE, 5) == 14 && Offset(CODE, 6) == 18 && Offset(CODE, 7) == 22
    ensures CodeSize(CODE) == 24
  {
    assert Offset(CODE, 1) == 1;
    assert Offset(CODE, 2) == 3;
    assert Offset(CODE, 3) == 8;
    assert Offset(CODE, 4) == 9;
    assert Offset(CODE, 5) == 14;
    assert Offset(CODE, 6) == 18;
    assert Offset(CODE, 7) == 22;
  }

  lemma Displacements()
    requires Exportable(CODE)
    ensures Displacement(CODE, 1) == 6 && Displacement(CODE, 5) == -22 && Displacement(CODE, 6) == 0
  {
    hide Offset;
    Offsets();
    assert SwitchBase(CODE, 5) == 22 == SwitchBase(CODE, 6);
  }

  /** A four-byte field, least significant byte first. */
  lemma Fields()
    ensures Le(0x1234_5678, 4) == [0x78, 0x56, 0x34, 0x12] && Le(2, 4) == [0x02, 0x00, 0x00, 0x00]
    ensures Le(0xFFFF_FFEA, 4) == [0xEA, 0xFF, 0xFF, 0xFF] && Le(0, 4) == [0x00, 0x00, 0x00, 0x00]
    ensures Le(6, 1) == [0x06] && forall w: nat :: Le(w, 0) == []
  {
  }

  lemma FirstInstrs()
    requires Exportable(CODE)
    ensures InstrBytes(CODE, 0) == [0x02] && InstrBytes(CODE, 1) == [0x2D, 0x06]
    ensures InstrBytes(CODE, 2) == [0x20, 0x78, 0x56, 0x34, 0x12] && InstrBytes(CODE, 3) == [0x26]
  {
    hide Le, Displacement;
    Displacements();
    Fields();
  }

  lemma LastInstrs()
    requires Exportable(CODE)
    ensures InstrBytes(CODE, 4) == [0x45, 0x02, 0x00, 0x00, 0x00]
    ensures InstrBytes(CODE, 5) == [0xEA, 0xFF, 0xFF, 0xFF] && InstrBytes(CODE, 6) == [0x00, 0x00, 0x00, 0x00]
    ensures InstrBytes(CODE, 7) == [0xFE, 0x1A]
  {
    hide Le, Displacement;
    Displacements();
    Fields();
  }

  /** One more instruction of the encoding. */
  lemma OneMore(k: nat, n: nat, m: nat)
    requires Exportable(CODE) && k < |CODE| && n <= m <= |BYTES|
    requires EncodePrefix(CODE, k) == BYTES[..n] && InstrBytes(CODE, k) == BYTES[n..m]
    ensures EncodePrefix(CODE, k + 1) == BYTES[..m]
  {
    hide InstrBytes, CODE, BYTES;
    assert BYTES[..n] + BYTES[n..m] == BYTES[..m];
  }

  lemma FirstSlices()
    ensures |BYTES| == 24
    ensures BYTES[0..1] == [0x02] && BYTES[1..3] == [0x2D, 0x06] && BYTES[8..9] == [0x26]
    ensures BYTES[3..8] == [0x20, 0x78, 0x56, 0x34, 0x12]
  {
    assert BYTES[1] == 0x2D && BYTES[2] == 0x06;
    assert BYTES[3] == 0x20 && BYTES[4] == 0x78 && BYTES[5] == 0x56 && BYTES[6] == 0x34 && BYTES[7] == 0x12;
  }

  lemma LastSlices()
    ensures |BYTES| == 24
    ensures BYTES[9..14] == [0x45, 0x02, 0x00, 0x00, 0x00] && BYTES[14..18] == [0xEA, 0xFF, 0xFF, 0xFF]
    ensures BYTES[18..22] == [0x00, 0x00, 0x00, 0x00] && BYTES[22..24] == [0xFE, 0x1A]
  {
    assert BYTES[9] == 0x45 && BYTES[10] == 0x02 && BYTES[11] == BYTES[12] == BYTES[13] == 0x00;
    assert BYTES[14] == 0xEA && BYTES[15] == BYTES[16] == BYTES[17] == 0xFF;
    assert BYTES[22] == 0xFE && BYTES[23] == 0x1A;
  }

  lemma InstrSlices()
    requires Exportable(CODE)
    ensures |CODE| == 8 && |BYTES| == 24
    ensures InstrBytes(CODE, 0) == BYTES[0..1] && InstrBytes(CODE, 1) == BYTES[1..3]
    ensures InstrBytes(CODE, 2) == BYTES[3..8] && InstrBytes(CODE, 3) == BYTES[8..9]
    ensures InstrBytes(CODE, 4) == BYTES[9..14] && InstrBytes(CODE, 5) == BYTES[14..18]
    ensures InstrBytes(CODE, 6) == BYTES[18..22] && InstrBytes(CODE, 7) == BYTES[22..24]
  {
    FirstInstrs();
    LastInstrs();
    FirstSlices();
    LastSlices();
    hide InstrBytes, BYTES;
  }

  lemma WholePrefix()
    requires Exportable(CODE)
    ensures |CODE| == 8 && EncodePrefix(CODE, 8) == BYTES
  {
    InstrSlices();
    NothingYet();
    hide InstrBytes, EncodePrefix, BYTES, CODE, Exportable;
    OneMore(0, 0, 1);
    OneMore(1, 1, 3);
    OneMore(2, 3, 8);
    OneMore(3, 8, 9);
    OneMore(4, 9, 14);
    OneMore(5, 14, 18);
    OneMore(6, 18, 22);
    OneMore(7, 22, 24);
    assert BYTES[..24] == BYTES;
  }

  /** The list encodes to the bytes, and no branch has to be widened. */
  lemma Encodes()
    ensures Exportable(CODE) && Fits(CODE) && Encode(CODE) == BYTES
  {
    CodeFits();
    NothingToWiden();
    WholePrefix();
    hide EncodePrefix, Fits, CODE, BYTES;
  }

  lemma NothingYet()
    requires Exportable(CODE)
    ensures EncodePrefix(CODE, 0) == []
  {
  }

  lemma NothingToWiden()
    requires Exportable(CODE)
    ensures Fits(CODE)
  {
    hide Displacement;
    Displacements();
  }

  lemma CanBeStored()
    ensures Storable(CODE)
  {
    CodeFits();
    assert SwitchesOk(CODE, 8, 0);
    assert SwitchesOk(CODE, 7, 0);
    assert SwitchesOk(CODE, 6, 1);
    assert SwitchesOk(CODE, 5, 2);
    assert SwitchesOk(CODE, 4, 0);
    assert SwitchesOk(CODE, 2, 0);
  }

  /** And the bytes are read as the list. */
  lemma ReadsBack()
    ensures Imports(BYTES, CODE)
  {
    hide Imports, Storable, Exportable, Encode, Fits, CODE, BYTES;
    CanBeStored();
    Encodes();
    RelaxedAlready();
    ExportImportRoundTrip(CODE);
  }

  lemma RelaxedAlready()
    requires Exportable(CODE) && Fits(CODE)
    ensures Relax(CODE) == CODE && CodeSize(CODE) < MAX_SIZE
  {
    Offsets();
  }
}
