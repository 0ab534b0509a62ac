/** Parameters and whole method signatures as trees, and what it is to read one from a byte string. */
module SignatureGrammar {
  import opened Bytes
  import opened SignatureTrees

  // ---- parameters and whole signatures, as trees

  /** A parameter or return type: a type, possibly by reference. */
  datatype Param = Param(byRef: bool, typ: Type)

  /** First bytes that do not start a parameter's type. */
  predicate IsParamPrefix(b: byte) {
    IsModifier(b) || b == ELEMENT_TYPEDBYREF || b == ELEMENT_BYREF
  }

  predicate ParamOk(p: Param) {
    TypeOk(p.typ) && (!p.byRef ==> !IsParamPrefix(Encode(p.typ)[0]))
  }

  function ParamBytes(p: Param): (bytes: seq<byte>)
    requires ParamOk(p)
    ensures |bytes| >= 1
  {
    (if p.byRef then [ELEMENT_BYREF] else []) + Encode(p.typ)
  }

  function ReadParam(data: seq<byte>): (r: Parsed<Param>)
    ensures r.Got? ==> 1 <= r.size <= |data|
  {
    if data == [] || IsModifier(data[0]) || data[0] == ELEMENT_TYPEDBYREF then Bad
    else if data[0] == ELEMENT_BYREF then
      match ReadType(data[1..])
      case Bad => Bad
      case Got(t, n) => Got(Param(true, t), 1 + n)
    else
      match ReadType(data)
      case Bad => Bad
      case Got(t, n) => Got(Param(false, t), n)
  }

  lemma ReadParamSound(data: seq<byte>)
    requires ReadParam(data).Got?
    ensures var r := ReadParam(data); ParamOk(r.value) && r.size == |ParamBytes(r.value)| && ParamBytes(r.value) <= data
  {
    hide ReadType, Encode, TypeOk;
    if data[0] == ELEMENT_BYREF {
      ReadTypeSound(data[1..]);
      assert data == [data[0]] + data[1..];
    } else {
      ReadTypeSound(data);
      assert Encode(ReadType(data).value)[0] == data[0];
    }
  }

  lemma ReadParamComplete(p: Param, rest: seq<byte>)
    requires ParamOk(p)
    ensures ReadParam(ParamBytes(p) + rest) == Got(p, |ParamBytes(p)|)
  {
    hide ReadType, Encode, TypeOk;
    var data := ParamBytes(p) + rest;
    if p.byRef {
      assert data[1..] == Encode(p.typ) + rest;
    } else {
      assert data == Encode(p.typ) + rest;
    }
    ReadTypeComplete(p.typ, rest);
  }

  /** A parameter with the sentinel of a vararg call in front of it, or without. */
  datatype Arg = Arg(sentinel: bool, param: Param)

  predicate ArgOk(a: Arg) {
    ParamOk(a.param) && (!a.sentinel ==> ParamBytes(a.param)[0] != ELEMENT_SENTINEL)
  }

  /** At most one sentinel, and none if one has been seen. */
  predicate ArgsOk(args: seq<Arg>, seen: bool) {
    args != [] ==>
      ArgOk(args[0]) && !(seen && args[0].sentinel) && ArgsOk(args[1..], seen || args[0].sentinel)
  }

  function ArgBytes(a: Arg): (bytes: seq<byte>)
    requires ArgOk(a)
    ensures |bytes| >= 1
  {
    (if a.sentinel then [ELEMENT_SENTINEL] else []) + ParamBytes(a.param)
  }

  function ArgsBytes(args: seq<Arg>, seen: bool): (bytes: seq<byte>)
    requires ArgsOk(args, seen)
    ensures |bytes| >= |args|
  {
    if args == [] then [] else ArgBytes(args[0]) + ArgsBytes(args[1..], seen || args[0].sentinel)
  }

  function ReadArg(data: seq<byte>, seen: bool): (r: Parsed<Arg>)
    ensures r.Got? ==> 1 <= r.size <= |data|
  {
    if data == [] then Bad
    else if data[0] == ELEMENT_SENTINEL then
      if seen then Bad
      else
        match ReadParam(data[1..])
        case Bad => Bad
        case Got(p, n) => Got(Arg(true, p), 1 + n)
    else
      match ReadParam(data)
      case Bad => Bad
      case Got(p, n) => Got(Arg(false, p), n)
  }

  function ReadArgs(data: seq<byte>, count: nat, seen: bool): (r: Parsed<seq<Arg>>)
    ensures r.Got? ==> r.size <= |data|
    decreases count
  {
    if count == 0 then Got([], 0)
    else
      match ReadArg(data, seen)
      case Bad => Bad
      case Got(a, n) =>
        match ReadArgs(data[n..], count - 1, seen || a.sentinel)
        case Bad => Bad
        case Got(args, k) => Got([a] + args, n + k)
  }

  lemma ReadArgSound(data: seq<byte>, seen: bool)
    requires ReadArg(data, seen).Got?
    ensures var r := ReadArg(data, seen);
            ArgOk(r.value) && !(seen && r.value.sentinel) && r.size == |ArgBytes(r.value)| && ArgBytes(r.value) <= data
  {
    hide ReadParam, ParamBytes, ParamOk;
    if data[0] == ELEMENT_SENTINEL {
      ReadParamSound(data[1..]);
      assert data == [data[0]] + data[1..];
    } else {
      ReadParamSound(data);
      assert ParamBytes(ReadParam(data).value)[0] == data[0];
    }
  }

  lemma ReadArgComplete(a: Arg, seen: bool, rest: seq<byte>)
    requires ArgOk(a) && !(seen && a.sentinel)
    ensures ReadArg(ArgBytes(a) + rest, seen) == Got(a, |ArgBytes(a)|)
  {
    hide ReadParam, ParamBytes, ParamOk;
    var data := ArgBytes(a) + rest;
    if a.sentinel {
      assert data[1..] == ParamBytes(a.param) + rest;
    } else {
      assert data == ParamBytes(a.param) + rest;
    }
    ReadParamComplete(a.param, rest);
  }

  lemma {:induction false} ReadArgsSound(data: seq<byte>, count: nat, seen: bool)
    requires ReadArgs(data, count, seen).Got?
    ensures var r := ReadArgs(data, count, seen);
            |r.value| == count && ArgsOk(r.value, seen) && r.size == |ArgsBytes(r.value, seen)|
            && ArgsBytes(r.value, seen) <= data
    decreases count
  {
    hide ReadArg, ArgBytes, ArgOk;
    if count > 0 {
      var r := ReadArg(data, seen);
      ReadArgSound(data, seen);
      ReadArgsSound(data[r.size..], count - 1, seen || r.value.sentinel);
      var rest := ReadArgs(data[r.size..], count - 1, seen || r.value.sentinel).value;
      assert ([r.value] + rest)[1..] == rest;
      assert data == data[..r.size] + data[r.size..];
    }
  }

  lemma {:induction false} ReadArgsComplete(args: seq<Arg>, seen: bool, rest: seq<byte>)
    requires ArgsOk(args, seen)
    ensures ReadArgs(ArgsBytes(args, seen) + rest, |args|, seen) == Got(args, |ArgsBytes(args, seen)|)
    decreases |args|
  {
    hide ReadArg, ArgBytes, ArgOk;
    if args != [] {
      var seen' := seen || args[0].sentinel;
      var head, tail := ArgBytes(args[0]), ArgsBytes(args[1..], seen') + rest;
      assert ArgsBytes(args, seen) + rest == head + tail;
      ReadArgComplete(args[0], seen, tail);
      assert (head + tail)[|head|..] == tail;
      ReadArgsComplete(args[1..], seen', rest);
      assert [args[0]] + args[1..] == args;
    }
  }

  // ---- whole signatures

  const CALLCONV_GENERIC: nat := 0x10

  /** A method signature: `typeArgs` is there exactly with the generic bit of the calling convention. */
  datatype Sig = Sig(conv: byte, typeArgs: Num, paramCount: Num, ret: Param, args: seq<Arg>)

  predicate IsGeneric(conv: byte) {
    (conv as int) / CALLCONV_GENERIC % 2 == 1
  }

  predicate SigOk(s: Sig) {
    && (if IsGeneric(s.conv) then NumOk(s.typeArgs) else s.typeArgs == Num(0, 0))
    && NumOk(s.paramCount) && ParamOk(s.ret) && |s.args| == s.paramCount.value && ArgsOk(s.args, false)
  }

  function CountBytes(s: Sig): (bytes: seq<byte>)
    requires SigOk(s)
    ensures |bytes| >= 1
  {
    [s.conv] + (if IsGeneric(s.conv) then NumBytes(s.typeArgs) else []) + NumBytes(s.paramCount)
  }

  function SigBytes(s: Sig): seq<byte>
    requires SigOk(s)
  {
    CountBytes(s) + ParamBytes(s.ret) + ArgsBytes(s.args, false)
  }

  /** The calling convention and the counts. */
  datatype Counts = Counts(conv: byte, typeArgs: Num, paramCount: Num)

  function ReadCounts(data: seq<byte>): (r: Parsed<Counts>)
    ensures r.Got? ==> 1 <= r.size <= |data|
  {
    if data == [] then Bad
    else if IsGeneric(data[0]) then
      match ReadNum(data[1..])
      case Bad => Bad
      case Got(typeArgs, n) =>
        ReadNumFits(data[1..]);
        match ReadNum(data[1 + n..])
        case Bad => Bad
        case Got(count, m) =>
          ReadNumFits(data[1 + n..]);
          Got(Counts(data[0], typeArgs, count), 1 + n + m)
    else
      match ReadNum(data[1..])
      case Bad => Bad
      case Got(count, m) =>
        ReadNumFits(data[1..]);
        Got(Counts(data[0], Num(0, 0), count), 1 + m)
  }

  /** The signature a byte string starts with. */
  function ReadSig(data: seq<byte>): (r: Parsed<Sig>)
    ensures r.Got? ==> r.size <= |data|
  {
    match ReadCounts(data)
    case Bad => Bad
    case Got(c, h) =>
      match ReadParam(data[h..])
      case Bad => Bad
      case Got(ret, n) =>
        match ReadArgs(data[h + n..], c.paramCount.value, false)
        case Bad => Bad
        case Got(args, k) => Got(Sig(c.conv, c.typeArgs, c.paramCount, ret, args), h + n + k)
  }

  lemma ReadCountsSound(data: seq<byte>, ret: Param, args: seq<Arg>)
    requires ReadCounts(data).Got? && ParamOk(ret) && ArgsOk(args, false)
    requires |args| == ReadCounts(data).value.paramCount.value
    ensures var r := ReadCounts(data);
            var s := Sig(r.value.conv, r.value.typeArgs, r.value.paramCount, ret, args);
            SigOk(s) && r.size == |CountBytes(s)| && CountBytes(s) <= data
  {
    hide ReadNum, NumBytes, ParamOk;
    ReadNumSound(data[1..]);
    if IsGeneric(data[0]) {
      var n := ReadNum(data[1..]).size;
      ReadNumSound(data[1 + n..]);
      var m := ReadNum(data[1 + n..]).size;
      assert data[..1 + n + m] == [data[0]] + data[1..][..n] + data[1 + n..][..m];
    } else {
      var m := ReadNum(data[1..]).size;
      assert data[..1 + m] == [data[0]] + data[1..][..m];
    }
  }

  lemma ReadCountsComplete(s: Sig, rest: seq<byte>)
    requires SigOk(s)
    ensures ReadCounts(CountBytes(s) + rest) == Got(Counts(s.conv, s.typeArgs, s.paramCount), |CountBytes(s)|)
  {
    hide ReadNum, NumBytes, ParamOk;
    var data := CountBytes(s) + rest;
    if IsGeneric(s.conv) {
      assert data[1..] == NumBytes(s.typeArgs) + (NumBytes(s.paramCount) + rest);
      ReadNumComplete(s.typeArgs, data[1..]);
      assert data[1 + s.typeArgs.width..] == NumBytes(s.paramCount) + rest;
      ReadNumComplete(s.paramCount, data[1 + s.typeArgs.width..]);
    } else {
      assert data[1..] == NumBytes(s.paramCount) + rest;
      ReadNumComplete(s.paramCount, data[1..]);
    }
  }

  lemma ReadSigSound(data: seq<byte>)
    requires ReadSig(data).Got?
    ensures var r := ReadSig(data); SigOk(r.value) && r.size == |SigBytes(r.value)| && SigBytes(r.value) <= data
  {
    hide ReadCounts, ReadParam, ReadArgs, CountBytes, ParamBytes, ArgsBytes;
    var h := ReadCounts(data).size;
    ReadParamSound(data[h..]);
    var n := ReadParam(data[h..]).size;
    var count := ReadCounts(data).value.paramCount.value;
    ReadArgsSound(data[h + n..], count, false);
    var args := ReadArgs(data[h + n..], count, false);
    ReadCountsSound(data, ReadParam(data[h..]).value, args.value);
    assert data[..h + n + args.size] == data[..h] + data[h..][..n] + data[h + n..][..args.size];
  }

  lemma ReadSigComplete(s: Sig, rest: seq<byte>)
    requires SigOk(s)
    ensures ReadSig(SigBytes(s) + rest) == Got(s, |SigBytes(s)|)
  {
    hide ReadCounts, ReadParam, ReadArgs, CountBytes, ParamBytes, ArgsBytes;
    var data := SigBytes(s) + rest;
    var h, n := |CountBytes(s)|, |ParamBytes(s.ret)|;
    assert data == CountBytes(s) + (ParamBytes(s.ret) + ArgsBytes(s.args, false) + rest);
    ReadCountsComplete(s, ParamBytes(s.ret) + ArgsBytes(s.args, false) + rest);
    assert data[h..] == ParamBytes(s.ret) + (ArgsBytes(s.args, false) + rest);
    ReadParamComplete(s.ret, ArgsBytes(s.args, false) + rest);
    assert data[h + n..] == ArgsBytes(s.args, false) + rest;
    ReadArgsComplete(s.args, false, rest);
  }
}
