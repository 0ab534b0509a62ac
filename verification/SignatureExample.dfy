/** Two method signatures spelled out: a static method with a type argument, and an instance one with a vararg. */
module SignatureExample {
  import opened Bytes
  import opened SignatureTrees
  import opened SignatureGrammar
  import opened SignaturePrinter
  import opened SignaturePrinterLaws

  /** static T M<T>(int[], ref string). */
  function GenericSig(): Sig {
    Sig(0x10, Num(1, 1), Num(2, 1), Param(false, Var(true, Num(0, 1))),
        [Arg(false, Param(false, SzArray(Simple(0x08)))), Arg(false, Param(true, Simple(0x0E)))])
  }

  lemma GenericArgs()
    ensures var args := GenericSig().args; ArgsOk(args, false) && ArgsBytes(args, false) == [0x1D, 0x08, 0x10, 0x0E]
  {
    var a, b := GenericSig().args[0], GenericSig().args[1];
    assert [a, b][1..] == [b] && [b][1..] == [];
    assert Encode(Simple(0x08)) == [0x08] && Encode(SzArray(Simple(0x08))) == [0x1D, 0x08];
    assert ArgBytes(a) == [0x1D, 0x08] && ArgBytes(b) == [0x10, 0x0E];
    assert ArgsOk([b], false) && ArgsBytes([b], false) == [0x10, 0x0E] + ArgsBytes([], false);
  }

  /** Its bytes, and what is read from them. */
  lemma GenericSpelled()
    ensures var bytes := [0x10, 0x01, 0x02, 0x1E, 0x00, 0x1D, 0x08, 0x10, 0x0E];
            SigOk(GenericSig()) && SigBytes(GenericSig()) == bytes && ReadSig(bytes) == Got(GenericSig(), 9)
  {
    GenericArgs();
    hide ArgsOk, ArgsBytes, ReadSig;
    var s := GenericSig();
    assert Encode(s.ret.typ) == [0x1E, 0x00];
    assert CountBytes(s) == [0x10, 0x01, 0x02];
    ReadSigComplete(s, []);
    assert SigBytes(s) + [] == SigBytes(s);
  }

  /** void M(int, __arglist(string)), with an instance. */
  function VarargSig(): Sig {
    Sig(0x25, Num(0, 0), Num(2, 1), Param(false, Other(0x01)),
        [Arg(false, Param(false, Simple(0x08))), Arg(true, Param(false, Simple(0x0E)))])
  }

  lemma VarargArgs()
    ensures var args := VarargSig().args; ArgsOk(args, false) && ArgsBytes(args, false) == [0x08, 0x41, 0x0E]
  {
    var a, b := VarargSig().args[0], VarargSig().args[1];
    assert [a, b][1..] == [b] && [b][1..] == [];
    assert ArgBytes(a) == [0x08] && ArgBytes(b) == [0x41, 0x0E];
    assert ArgsOk([b], false) && ArgsBytes([b], false) == [0x41, 0x0E] + ArgsBytes([], true);
  }

  lemma VarargSpelled()
    ensures var bytes := [0x25, 0x02, 0x01, 0x08, 0x41, 0x0E];
            SigOk(VarargSig()) && SigBytes(VarargSig()) == bytes && ReadSig(bytes) == Got(VarargSig(), 6)
  {
    VarargArgs();
    hide ArgsOk, ArgsBytes, ReadSig;
    var s := VarargSig();
    assert CountBytes(s) == [0x25, 0x02];
    ReadSigComplete(s, []);
    assert SigBytes(s) + [] == SigBytes(s);
  }

  /** static void M<T>(int[]) as the iterative printer sees it. */
  lemma GenericPrinted(lk: Lookup)
    ensures Run([0x10, 0x01, 0x01, 0x01, 0x1D, 0x08], lk, StartState([0x10, 0x01, 0x01, 0x01, 0x1D, 0x08]))
            == Some(["System.Void", "System.Int32[]"])
  {
    var data: seq<byte> := [0x10, 0x01, 0x01, 0x01, 0x1D, 0x08];
    var ts := [Other(0x01), SzArray(Simple(0x08))];
    PrintedTypes(lk);
    assert data[3..] == [0x01, 0x1D, 0x08];
    assert IsSignature(data, lk, ts);
    hide Run, IsSignature, StartState;
    PrintsSignature(data, lk, ts);
    assert SkewedAll(ts, lk) == ["System.Void", "System.Int32[]"];
  }

  lemma PrintedTypes(lk: Lookup)
    ensures var ts := [Other(0x01), SzArray(Simple(0x08))];
            && TypesOk(ts) && AllPrintable(ts, lk) && EncodeAll(ts) == [0x01, 0x1D, 0x08]
            && Skewed(ts[0], lk, "") == "System.Void" && Skewed(ts[1], lk, "") == "System.Int32[]"
  {
    var a, b := Other(0x01), SzArray(Simple(0x08));
    assert [a, b][1..] == [b] && [b][1..] == [];
    assert Encode(b) == [0x1D, 0x08];
    assert TypesOk([b]) && AllPrintable([b], lk) && EncodeAll([b]) == Encode(b) + EncodeAll([]);
    assert Skewed(b, lk, "") == "System.Int32" + ("" + "[]");
    assert "System.Void" + "" == "System.Void";
  }
}
