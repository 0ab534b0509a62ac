/** What the iterative printer gives on whole signatures, and when that is what the recursive printer gives. */
module SignaturePrinterLaws {
  import opened Bytes
  import opened SignatureTrees
  import opened SignaturePrinter

  // ---- whole signatures

  function SkewedAll(ts: seq<Type>, lk: Lookup): (r: seq<string>)
    ensures |r| == |ts|
  {
    seq(|ts|, i requires 0 <= i < |ts| => Skewed(ts[i], lk, ""))
  }

  function PrettyAll(ts: seq<Type>, lk: Lookup): (r: seq<string>)
    ensures |r| == |ts|
  {
    seq(|ts|, i requires 0 <= i < |ts| => Pretty(ts[i], lk))
  }

  lemma DeliverAtBoundary(s: PState, i: nat, text: string)
    requires s.stack == [] && s.cur == "" && s.count < |s.names|
    ensures Deliver(s, i, text) == Go(PState(i + 1, [], "", "", s.names[s.count := text], s.count + 1))
  {
    assert "" + text + ("" + "") == text;
  }

  /** Between types, the loop stores one name per type. */
  lemma {:induction false} PrintsAll(data: seq<byte>, lk: Lookup, s: PState, ts: seq<Type>)
    requires s.stack == [] && s.app == "" && s.cur == "" && s.count + |ts| == |s.names| && s.i <= |data|
    requires TypesOk(ts) && AllPrintable(ts, lk) && EncodeAll(ts) == data[s.i..]
    ensures Run(data, lk, s) == Some(s.names[..s.count] + SkewedAll(ts, lk))
    decreases |ts|
  {
    hide Step, Deliver, Encode, Skewed;
    if ts == [] {
      assert s.names[..s.count] + [] == s.names;
      RunEnds(data, lk, s);
    } else {
      HeadTail(data, s.i, ts);
      PrintsType(data, lk, s, ts[0]);
      var n, text := |Encode(ts[0])|, Skewed(ts[0], lk, "");
      DeliverAtBoundary(s, s.i + n - 1, text);
      var s2 := PState(s.i + n, [], "", "", s.names[s.count := text], s.count + 1);
      assert EncodeAll(ts[1..]) == data[s2.i..] by {
        assert EncodeAll(ts)[n..] == EncodeAll(ts[1..]);
        assert data[s.i..][n..] == data[s.i + n..];
      }
      PrintsAll(data, lk, s2, ts[1..]);
      assert s2.names[..s2.count] == s.names[..s.count] + [text];
      assert SkewedAll(ts, lk) == [text] + SkewedAll(ts[1..], lk);
      assert s.names[..s.count] + [text] + SkewedAll(ts[1..], lk) == s.names[..s.count] + SkewedAll(ts, lk);
    }
  }

  lemma RunEnds(data: seq<byte>, lk: Lookup, s: PState)
    requires s.i >= |data|
    ensures Run(data, lk, s) == Some(s.names)
  {
  }

  /**
   A signature with one-byte counts: calling convention, the number of type arguments if it is generic (and not
   zero), the number of arguments, and as many types and one more.
   */
  predicate IsSignature(data: seq<byte>, lk: Lookup, ts: seq<Type>) {
    && TypesOk(ts) && AllPrintable(ts, lk) && |ts| == ArgumentCount(data) + 1
    && (if GenericBit(data) then |data| >= 3 && data[1] > 0 && data[3..] == EncodeAll(ts)
        else |data| >= 2 && data[2..] == EncodeAll(ts))
  }

  /** On a signature the printer succeeds, with one name for each position. */
  lemma PrintsSignature(data: seq<byte>, lk: Lookup, ts: seq<Type>)
    requires IsSignature(data, lk, ts)
    ensures Run(data, lk, StartState(data)) == Some(SkewedAll(ts, lk))
  {
    hide EncodeAll, Run;
    var s := StartState(data);
    PrintsAll(data, lk, s, ts);
    assert s.names[..0] + SkewedAll(ts, lk) == SkewedAll(ts, lk);
  }

  // ---- when the names are the recursive ones

  /** No array whose items are generic instances. */
  predicate NoArrayOfGeneric(t: Type) {
    match t
    case SzArray(item) => !item.Generic? && NoArrayOfGeneric(item)
    case Generic(_, _, _, args) => NoneArrayOfGeneric(args)
    case _ => true
  }

  predicate NoneArrayOfGeneric(ts: seq<Type>) {
    ts != [] ==> NoArrayOfGeneric(ts[0]) && NoneArrayOfGeneric(ts[1..])
  }

  /** What an array is an array of, arrays taken off. */
  function Core(t: Type): Type {
    if t.SzArray? then Core(t.item) else t
  }

  lemma {:induction false} SkewedLength(t: Type, lk: Lookup, app: string)
    requires Printable(t, lk) && TypeOk(t)
    ensures |Skewed(t, lk, app)| == |Pretty(t, lk)| + |app|
    decreases t
  {
    match t {
      case SzArray(item) => SkewedLength(item, lk, app + "[]");
      case Generic(_, _, _, args) => SkewedArgsLength(args, lk, app);
      case _ =>
    }
  }

  lemma {:induction false} SkewedArgsLength(ts: seq<Type>, lk: Lookup, app: string)
    requires AllPrintable(ts, lk) && TypesOk(ts)
    ensures |SkewedArgs(ts, lk, app)| == |PrettyArgs(ts, lk)| + if ts == [] then 0 else |app|
    decreases ts
  {
    hide Printable, TypeOk;
    if ts != [] {
      SkewedLength(ts[0], lk, app);
      SkewedArgsLength(ts[1..], lk, "");
    }
  }

  lemma {:induction false} BracketsCommute(k: nat)
    ensures Brackets(k) + "[]" == "[]" + Brackets(k) == Brackets(k + 1)
  {
    if k > 0 {
      BracketsCommute(k - 1);
      assert "[]" + Brackets(k - 1) + "[]" == "[]" + (Brackets(k - 1) + "[]");
    } else {
      assert "" + "[]" == "[]" + "" == "[]";
    }
  }

  /** Brackets pass unharmed through arrays of anything but a generic instance. */
  lemma {:induction false} SkewedPlain(t: Type, lk: Lookup, k: nat)
    requires !Core(t).Generic?
    ensures Skewed(t, lk, Brackets(k)) == Pretty(t, lk) + Brackets(k)
    decreases t
  {
    if t.SzArray? {
      BracketsCommute(k);
      SkewedPlain(t.item, lk, k + 1);
      assert Pretty(t.item, lk) + ("[]" + Brackets(k)) == Pretty(t.item, lk) + "[]" + Brackets(k);
    }
  }

  lemma {:induction false} SkewedEndsOpen(t: Type, lk: Lookup, app: string)
    requires Core(t).Generic?
    ensures var s := Skewed(t, lk, app); s != "" && s[|s| - 1] == '>'
    decreases t
  {
    hide SkewedArgs;
    if t.SzArray? {
      SkewedEndsOpen(t.item, lk, app + "[]");
    }
  }

  lemma {:induction false} CoreDecides(t: Type)
    ensures t.SzArray? ==> NoArrayOfGeneric(t) == !Core(t).Generic?
    decreases t
  {
    if t.SzArray? {
      CoreDecides(t.item);
    }
  }

  lemma SplitEqual(a: string, b: string, x: string, y: string)
    requires |a| == |b|
    ensures a + x == b + y <==> a == b && x == y
  {
    if a + x == b + y {
      assert a == (a + x)[..|a|] == (b + y)[..|b|] == b;
      assert x == (a + x)[|a|..] == (b + y)[|b|..] == y;
    }
  }

  /** The printer's name of a type is the recursive one if and only if no array has generic instances as items. */
  lemma {:induction false} SkewedIff(t: Type, lk: Lookup)
    requires TypeOk(t) && Printable(t, lk)
    ensures Skewed(t, lk, "") == Pretty(t, lk) <==> NoArrayOfGeneric(t)
    decreases t
  {
    match t {
      case SzArray(item) => ArrayIff(t, lk);
      case Generic(_, token, _, args) =>
        ArgsIff(args, lk);
        var name := lk.bareName(token.value) + "<";
        SplitEqual(name, name, SkewedArgs(args, lk, "") + ">", PrettyArgs(args, lk) + ">");
        SkewedArgsLength(args, lk, "");
        SplitEqual(SkewedArgs(args, lk, ""), PrettyArgs(args, lk), ">", ">");
        GenericNames(t, lk);
      case _ =>
    }
  }

  lemma GenericNames(t: Type, lk: Lookup)
    requires t.Generic?
    ensures var name := lk.bareName(t.token.value) + "<";
            && Skewed(t, lk, "") == name + (SkewedArgs(t.args, lk, "") + ">")
            && Pretty(t, lk) == name + (PrettyArgs(t.args, lk) + ">")
  {
    hide SkewedArgs, PrettyArgs;
  }

  lemma ArrayIff(t: Type, lk: Lookup)
    requires t.SzArray?
    ensures Skewed(t, lk, "") == Pretty(t, lk) <==> NoArrayOfGeneric(t)
  {
    CoreDecides(t);
    if Core(t).Generic? {
      SkewedEndsOpen(t, lk, "");
      hide Skewed, NoArrayOfGeneric, Core;
      var p := Pretty(t, lk);
      assert p[|p| - 1] == ']';
    } else {
      SkewedPlain(t, lk, 0);
      assert Pretty(t, lk) + "" == Pretty(t, lk);
    }
  }

  lemma {:induction false} ArgsIff(ts: seq<Type>, lk: Lookup)
    requires TypesOk(ts) && AllPrintable(ts, lk)
    ensures SkewedArgs(ts, lk, "") == PrettyArgs(ts, lk) <==> NoneArrayOfGeneric(ts)
    decreases ts
  {
    hide TypeOk, Printable, Skewed, Pretty, NoArrayOfGeneric;
    if ts != [] {
      SkewedIff(ts[0], lk);
      ArgsIff(ts[1..], lk);
      SkewedLength(ts[0], lk, "");
      var comma := if |ts| > 1 then ", " else "";
      SplitEqual(Skewed(ts[0], lk, ""), Pretty(ts[0], lk), comma + SkewedArgs(ts[1..], lk, ""),
                 comma + PrettyArgs(ts[1..], lk));
      SplitEqual(comma, comma, SkewedArgs(ts[1..], lk, ""), PrettyArgs(ts[1..], lk));
      Regroup(Skewed(ts[0], lk, ""), comma, SkewedArgs(ts[1..], lk, ""));
      Regroup(Pretty(ts[0], lk), comma, PrettyArgs(ts[1..], lk));
    }
  }

  lemma Regroup(a: string, b: string, c: string)
    ensures a + b + c == a + (b + c)
  {
  }

  /**
   The iterative printer refines the recursive one: on a signature it gives, position by position, the recursive
   names, if and only if no type in it has an array of generic instances.
   */
  lemma PrinterRefinesIff(data: seq<byte>, lk: Lookup, ts: seq<Type>)
    requires IsSignature(data, lk, ts)
    ensures Run(data, lk, StartState(data)) == Some(PrettyAll(ts, lk)) <==> NoneArrayOfGeneric(ts)
  {
    hide Run, Skewed, Pretty, NoArrayOfGeneric, StartState, IsSignature, TypeOk, Printable;
    PrintsSignature(data, lk, ts);
    SignatureTypes(data, lk, ts);
    NoneIff(ts);
    forall i | 0 <= i < |ts| ensures SkewedAll(ts, lk)[i] == PrettyAll(ts, lk)[i] <==> NoArrayOfGeneric(ts[i]) {
      EachOk(ts, lk, i);
      SkewedIff(ts[i], lk);
    }
    if NoneArrayOfGeneric(ts) {
      assert SkewedAll(ts, lk) == PrettyAll(ts, lk);
    } else {
      var i :| 0 <= i < |ts| && !NoArrayOfGeneric(ts[i]);
      assert SkewedAll(ts, lk)[i] != PrettyAll(ts, lk)[i];
    }
  }

  lemma SignatureTypes(data: seq<byte>, lk: Lookup, ts: seq<Type>)
    requires IsSignature(data, lk, ts)
    ensures TypesOk(ts) && AllPrintable(ts, lk)
  {
    hide TypesOk, AllPrintable, EncodeAll;
  }

  lemma {:induction false} NoneIff(ts: seq<Type>)
    ensures NoneArrayOfGeneric(ts) <==> forall i :: 0 <= i < |ts| ==> NoArrayOfGeneric(ts[i])
  {
    hide NoArrayOfGeneric;
    if ts != [] {
      NoneIff(ts[1..]);
      forall i | 0 < i < |ts| ensures ts[i] == ts[1..][i - 1] {
      }
      if forall i :: 0 <= i < |ts| ==> NoArrayOfGeneric(ts[i]) {
        forall i | 0 <= i < |ts| - 1 ensures NoArrayOfGeneric(ts[1..][i]) {
          assert ts[1..][i] == ts[i + 1];
        }
      }
    }
  }

  lemma {:induction false} EachOk(ts: seq<Type>, lk: Lookup, i: nat)
    requires TypesOk(ts) && AllPrintable(ts, lk) && i < |ts|
    ensures TypeOk(ts[i]) && Printable(ts[i], lk)
  {
    hide TypeOk, Printable;
    if i > 0 {
      EachOk(ts[1..], lk, i - 1);
    }
  }
}
