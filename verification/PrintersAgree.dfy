/** The two name printers side by side: on which types, and on which signatures, they give the same names. */
module PrintersAgree {
  import opened Bytes
  import opened SignatureTrees
  import opened SignatureGrammar
  import opened SignatureNames
  import opened SignaturePrinter
  import opened SignaturePrinterLaws
  import opened ElementTable

  /** Built-in types other than characters and native integers, named types, and arrays of these. */
  predicate Plain(t: Type) {
    match t
    case Simple(b) => ElementName(b) !in {"CHAR", "I", "U"}
    case Named(_, _) => true
    case SzArray(item) => Plain(item)
    case _ => false
  }

  /** Both printers look the same names up: no nested types. */
  ghost predicate SameNames(lk: Lookup, names: Names) {
    forall token: nat :: lk.fullName(token) == names(token) && lk.bareName(token) == names(token)
  }

  function NameOfAll(ts: seq<Type>, names: Names): (r: seq<string>)
    requires TypesOk(ts) && AllSupported(ts)
    ensures |r| == |ts|
    decreases ts
  {
    if ts == [] then [] else [NameOf(ts[0], names)] + NameOfAll(ts[1..], names)
  }

  lemma {:induction false} NameOfAllAt(ts: seq<Type>, names: Names, i: nat)
    requires TypesOk(ts) && AllSupported(ts) && i < |ts|
    ensures TypeOk(ts[i]) && Supported(ts[i]) && NameOfAll(ts, names)[i] == NameOf(ts[i], names)
  {
    hide TypeOk, Supported, NameOf;
    if i > 0 {
      NameOfAllAt(ts[1..], names, i - 1);
    }
  }

  lemma {:induction false} PlainCore(t: Type)
    ensures Plain(t) == Plain(Core(t)) && (t.SzArray? || Core(t) == t)
    decreases t
  {
    if t.SzArray? {
      PlainCore(t.item);
    }
  }

  /** How many arrays stand around the core. */
  function Rank(t: Type): nat {
    if t.SzArray? then 1 + Rank(t.item) else 0
  }

  lemma {:induction false} CoreOk(t: Type, lk: Lookup)
    requires TypeOk(t) && Supported(t) && Printable(t, lk)
    ensures TypeOk(Core(t)) && Supported(Core(t)) && Printable(Core(t), lk) && !Core(t).SzArray?
    decreases t
  {
    if t.SzArray? {
      CoreOk(t.item, lk);
    }
  }

  /** Names of arrays are the name of the core and brackets. */
  lemma {:induction false} NameOfCore(t: Type, names: Names)
    requires TypeOk(t) && Supported(t)
    ensures TypeOk(Core(t)) && Supported(Core(t)) && NameOf(t, names) == NameOf(Core(t), names) + Brackets(Rank(t))
    decreases t
  {
    if t.SzArray? {
      NameOfCore(t.item, names);
      BracketsCommute(Rank(t.item));
      assert NameOf(t.item, names) + "[]" == NameOf(Core(t), names) + (Brackets(Rank(t.item)) + "[]");
    } else {
      assert NameOf(t, names) + "" == NameOf(t, names);
    }
  }

  lemma {:induction false} SkewedCore(t: Type, lk: Lookup, k: nat)
    ensures Skewed(t, lk, Brackets(k)) == Skewed(Core(t), lk, Brackets(k + Rank(t)))
    decreases t
  {
    if t.SzArray? {
      BracketsCommute(k);
      SkewedCore(t.item, lk, k + 1);
    }
  }

  lemma FirstChars(lk: Lookup, names: Names, t: Type, app: string)
    requires TypeOk(t) && Supported(t) && t.Generic? && SameNames(lk, names)
    ensures var n := names(t.token.value);
            && |Skewed(t, lk, app)| > |n| && Skewed(t, lk, app)[|n|] == '<'
            && |NameOf(t, names)| > |n| && NameOf(t, names)[|n|] == '['
  {
    hide SkewedArgs, NamesOf, NumOk;
    var n := names(t.token.value);
    assert lk.bareName(t.token.value) == n;
  }

  lemma VarsDiffer(lk: Lookup, names: Names, t: Type, app: string)
    requires TypeOk(t) && Supported(t) && t.Var?
    ensures Skewed(t, lk, app) != "" && Skewed(t, lk, app)[0] == 'T'
    ensures NameOf(t, names) != "" && NameOf(t, names)[0] == '!'
  {
  }

  lemma TextsDiffer(b: byte, k: nat)
    requires IsSimple(b)
    ensures ElementText(b) + Brackets(k) == SimpleName(b) + Brackets(k) <==> ElementName(b) !in {"CHAR", "I", "U"}
  {
    hide ElementText, SimpleName, ElementName, BuiltIn;
    TextIff(b);
    SimpleNamed(b);
    var a, c := ElementText(b), SimpleName(b);
    if a + Brackets(k) == c + Brackets(k) {
      assert |a| == |c|;
      SplitEqual(a, c, Brackets(k), Brackets(k));
    }
  }

  /** A core with brackets behind it. */
  lemma CoreAgreesIff(t: Type, lk: Lookup, names: Names, k: nat)
    requires TypeOk(t) && Supported(t) && Printable(t, lk) && !t.SzArray? && SameNames(lk, names)
    ensures Skewed(t, lk, Brackets(k)) == NameOf(t, names) + Brackets(k) <==> Plain(t)
  {
    hide Skewed, NameOf, ElementName, Printable, Brackets;
    match t {
      case Simple(b) =>
        TextsDiffer(b, k);
        LeafNames(t, lk, names, k);
      case Named(_, token) =>
        LeafNames(t, lk, names, k);
      case Var(_, _) =>
        VarsDiffer(lk, names, t, Brackets(k));
        assert (NameOf(t, names) + Brackets(k))[0] == NameOf(t, names)[0];
      case Generic(_, token, _, _) =>
        FirstChars(lk, names, t, Brackets(k));
        var n := |names(token.value)|;
        assert (NameOf(t, names) + Brackets(k))[n] == NameOf(t, names)[n];
      case Other(_) =>
      case SzArray(_) =>
    }
  }

  lemma LeafNames(t: Type, lk: Lookup, names: Names, k: nat)
    requires TypeOk(t) && Supported(t) && SameNames(lk, names)
    ensures t.Simple? ==> Skewed(t, lk, Brackets(k)) == ElementText(t.elem) + Brackets(k)
                          && NameOf(t, names) == SimpleName(t.elem)
    ensures t.Named? ==> Skewed(t, lk, Brackets(k)) == names(t.token.value) + Brackets(k)
                         && NameOf(t, names) == names(t.token.value)
  {
    hide ElementText, SimpleName, Brackets;
  }

  /** On a type, the iterative printer's name is the recursive printer's if and only if the type is plain. */
  lemma NamesAgreeIff(t: Type, lk: Lookup, names: Names)
    requires TypeOk(t) && Supported(t) && Printable(t, lk) && SameNames(lk, names)
    ensures Skewed(t, lk, "") == NameOf(t, names) <==> Plain(t)
  {
    hide Skewed, NameOf, Plain, Printable, SameNames;
    PlainCore(t);
    CoreOk(t, lk);
    NameOfCore(t, names);
    SkewedCore(t, lk, 0);
    assert Brackets(0) == "";
    CoreAgreesIff(Core(t), lk, names, Rank(t));
  }

  /**
   On a whole signature the iterative printer succeeds with exactly the names the recursive printer gives position by
   position, if and only if every type in it is plain.
   */
  lemma PrintersAgreeIff(data: seq<byte>, lk: Lookup, names: Names, ts: seq<Type>)
    requires IsSignature(data, lk, ts) && TypesOk(ts) && AllSupported(ts) && SameNames(lk, names)
    ensures Run(data, lk, StartState(data)) == Some(NameOfAll(ts, names))
            <==> forall i :: 0 <= i < |ts| ==> Plain(ts[i])
  {
    hide Run, Skewed, NameOf, Plain, StartState, IsSignature, TypeOk, Printable, SameNames, Supported, NameOfAll;
    PrintsSignature(data, lk, ts);
    SignatureTypes(data, lk, ts);
    forall i | 0 <= i < |ts| ensures SkewedAll(ts, lk)[i] == NameOfAll(ts, names)[i] <==> Plain(ts[i]) {
      EachOk(ts, lk, i);
      NameOfAllAt(ts, names, i);
      NamesAgreeIff(ts[i], lk, names);
    }
    if forall i :: 0 <= i < |ts| ==> Plain(ts[i]) {
      assert SkewedAll(ts, lk) == NameOfAll(ts, names);
    }
  }

  // ---- numbers and structures, spelled out

  function DigitValue(c: char): int {
    c as int - '0' as int
  }

  /** The number a string of digits stands for. */
  function NumberOf(s: string): int {
    if s == "" then 0 else 10 * NumberOf(s[..|s| - 1]) + DigitValue(s[|s| - 1])
  }

  /** The index of a type variable is printed as its decimal digits, without leading zeros. */
  lemma {:induction false} DecimalReads(n: nat)
    ensures NumberOf(Decimal(n)) == n && Decimal(n) != "" && (n > 0 ==> Decimal(n)[0] != '0')
    ensures forall i :: 0 <= i < |Decimal(n)| ==> '0' <= Decimal(n)[i] <= '9'
  {
    if n < 10 {
      assert [Digit(n)][..0] == "";
    } else {
      DecimalReads(n / 10);
      assert Decimal(n)[..|Decimal(n)| - 1] == Decimal(n / 10);
    }
  }

  /** C<int[], M12> for a class C: two arguments, the second the method's type variable 12. */
  function Example(): Type {
    Generic(false, Num(5, 1), Num(2, 1), [SzArray(Simple(0x08)), Var(true, Num(12, 1))])
  }

  /** A reference to it as a parameter: its bytes. */
  lemma ExampleBytes(lk: Lookup, names: Names)
    ensures SupportedParam(Param(true, Example()))
    ensures ParamBytes(Param(true, Example())) == [0x10, 0x15, 0x12, 0x05, 0x02, 0x1D, 0x08, 0x1E, 0x0C]
  {
    ArgumentsSpelled(lk, names);
    var t := Example();
    hide TypesOk, EncodeAll, AllSupported;
    assert Encode(t) == [0x15, 0x12, 0x05, 0x02] + EncodeAll(t.args);
  }

  /** And what the two printers make of it. */
  lemma ExampleNames(lk: Lookup, names: Names)
    ensures SupportedParam(Param(true, Example()))
    ensures ParamName(Param(true, Example()), names) == names(5) + "[System.Int32[],!!12]&"
    ensures Pretty(Example(), lk) == lk.bareName(5) + "<System.Int32[], T>"
  {
    ArgumentsSpelled(lk, names);
    ExampleBytes(lk, names);
    var t := Example();
    hide TypesOk, EncodeAll, NamesOf, PrettyArgs, AllSupported, Encode;
    assert NameOf(t, names) == names(5) + ("[" + "System.Int32[],!!12" + "]");
    assert Pretty(t, lk) == lk.bareName(5) + ("<" + "System.Int32[], T" + ">");
  }

  lemma ArgumentsSpelled(lk: Lookup, names: Names)
    ensures var ts := Example().args;
            && TypesOk(ts) && AllSupported(ts) && EncodeAll(ts) == [0x1D, 0x08, 0x1E, 0x0C]
            && NamesOf(ts, names) == "System.Int32[],!!12" && PrettyArgs(ts, lk) == "System.Int32[], T"
  {
    var a, b := SzArray(Simple(0x08)), Var(true, Num(12, 1));
    LastSpelled(lk, names);
    assert [a, b][1..] == [b];
    assert Encode(a) == [0x1D, 0x08] && NameOf(a, names) == "System.Int32[]" && Pretty(a, lk) == "System.Int32[]";
  }

  lemma LastSpelled(lk: Lookup, names: Names)
    ensures var ts := [Var(true, Num(12, 1))];
            && TypesOk(ts) && AllSupported(ts) && EncodeAll(ts) == [0x1E, 0x0C]
            && NamesOf(ts, names) == "!!12" && PrettyArgs(ts, lk) == "T"
  {
    var b := Var(true, Num(12, 1));
    VariableSpelled(lk, names);
    assert [b][1..] == [];
    assert AllSupported([b]) by { assert AllSupported([]); }
    assert NamesOf([], names) == "" && PrettyArgs([], lk) == "" && EncodeAll([]) == [];
  }

  lemma VariableSpelled(lk: Lookup, names: Names)
    ensures var b := Var(true, Num(12, 1));
            TypeOk(b) && Encode(b) == [0x1E, 0x0C] && NameOf(b, names) == "!!12" && Pretty(b, lk) == "T"
    ensures var c := Var(false, Num(0, 1));
            TypeOk(c) && Encode(c) == [0x13, 0x00] && NameOf(c, names) == "!0" && Pretty(c, lk) == "T"
  {
    assert Decimal(1) == "1" && Decimal(12) == "12";
  }

  /** The spellings of integers that section II.23.2 of ECMA-335 gives as examples. */
  lemma IntegersSpelled()
    ensures NumBytes(Shortest(0x03)) == [0x03] && NumBytes(Shortest(0x7F)) == [0x7F]
    ensures NumBytes(Shortest(0x80)) == [0x80, 0x80] && NumBytes(Shortest(0x2E57)) == [0xAE, 0x57]
    ensures NumBytes(Shortest(0x3FFF)) == [0xBF, 0xFF] && NumBytes(Shortest(0x4000)) == [0xC0, 0x00, 0x40, 0x00]
    ensures NumBytes(Shortest(0x1FFF_FFFF)) == [0xDF, 0xFF, 0xFF, 0xFF]
  {
  }
}
