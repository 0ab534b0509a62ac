/**
 Signature blobs (section II.23.2 of ECMA-335) as trees: compressed integers with the width they are written in,
 types, and the bytes that spell them.
 */
module SignatureTrees {
  import opened Bytes

  // ---- compressed integers

  /** A compressed integer and the number of bytes it is spelled with: 1, 2 or 4, not always the fewest. */
  datatype Num = Num(value: nat, width: nat)

  predicate NumOk(n: Num) {
    || (n.width == 1 && n.value < 0x80)
    || (n.width == 2 && n.value < 0x4000)
    || (n.width == 4 && n.value < 0x2000_0000)
  }

  function NumBytes(n: Num): (bytes: seq<byte>)
    requires NumOk(n)
    ensures |bytes| == n.width
  {
    if n.width == 1 then [n.value]
    else if n.width == 2 then [0x80 + n.value / 0x100, n.value % 0x100]
    else
      var high := n.value / 0x100 / 0x100;
      [0xC0 + high / 0x100, high % 0x100, n.value / 0x100 % 0x100, n.value % 0x100]
  }

  /** The spelling with the fewest bytes. */
  function Shortest(value: nat): (n: Num)
    requires value < 0x2000_0000
    ensures NumOk(n) && n.value == value
  {
    Num(value, if value <= 0x7F then 1 else if value <= 0x3FFF then 2 else 4)
  }

  datatype Parsed<+T> = Bad | Got(value: T, size: nat)

  /** The compressed integer a byte string starts with. */
  function ReadNum(data: seq<byte>): (r: Parsed<Num>) {
    if |data| == 0 then Bad
    else if data[0] < 0x80 then Got(Num(data[0], 1), 1)
    else if data[0] < 0xC0 then
      if |data| < 2 then Bad else Got(Num(TwoByteValue(data[0], data[1]), 2), 2)
    else if data[0] < 0xE0 then
      if |data| < 4 then Bad else Got(Num(FourByteValue(data[0], data[1], data[2], data[3]), 4), 4)
    else Bad
  }

  function TwoByteValue(a: int, b: int): int {
    a % 0x40 * 0x100 + b
  }

  function FourByteValue(a: int, b: int, c: int, d: int): int {
    ((a % 0x20 * 0x100 + b) * 0x100 + c) * 0x100 + d
  }

  lemma LastByte(x: nat, y: byte)
    ensures (x * 0x100 + y) / 0x100 == x && (x * 0x100 + y) % 0x100 == y
  {
  }

  lemma FourBytes(a: byte, b: byte, c: byte, d: byte)
    requires 0xC0 <= a < 0xE0
    ensures var v := FourByteValue(a, b, c, d);
            && 0 <= v < 0x2000_0000 && NumBytes(Num(v, 4)) == [a, b, c, d]
  {
    var x := (a as int) % 0x20;
    LastByte(x, b);
    LastByte(x * 0x100 + b, c);
    LastByte((x * 0x100 + b) * 0x100 + c, d);
  }

  lemma FromFourBytes(v: nat)
    requires v < 0x2000_0000
    ensures var s := NumBytes(Num(v, 4));
            0xC0 <= s[0] < 0xE0 && FourByteValue(s[0], s[1], s[2], s[3]) == v
  {
    var x := v / 0x100;
    var y := x / 0x100;
    assert y < 0x2000;
    assert (0xC0 + y / 0x100) % 0x20 == y / 0x100;
  }

  lemma TwoBytes(a: byte, b: byte)
    requires 0x80 <= a < 0xC0
    ensures var v := TwoByteValue(a, b); 0 <= v < 0x4000 && NumBytes(Num(v, 2)) == [a, b]
  {
  }

  lemma FromTwoBytes(v: nat)
    requires v < 0x4000
    ensures var s := NumBytes(Num(v, 2)); 0x80 <= s[0] < 0xC0 && TwoByteValue(s[0], s[1]) == v
  {
  }

  lemma ReadNumSound(data: seq<byte>)
    requires ReadNum(data).Got?
    ensures var r := ReadNum(data); NumOk(r.value) && r.size == r.value.width && NumBytes(r.value) <= data
  {
    hide NumBytes, TwoByteValue, FourByteValue;
    if data[0] < 0x80 {
      OneByte(data[0]);
    } else if data[0] < 0xC0 {
      TwoBytes(data[0], data[1]);
      assert data[..2] == [data[0], data[1]];
    } else {
      FourBytes(data[0], data[1], data[2], data[3]);
      assert data[..4] == [data[0], data[1], data[2], data[3]];
    }
  }

  lemma OneByte(a: byte)
    requires a < 0x80
    ensures NumBytes(Num(a, 1)) == [a]
  {
  }

  lemma ReadNumComplete(n: Num, data: seq<byte>)
    requires NumOk(n) && NumBytes(n) <= data
    ensures ReadNum(data) == Got(n, n.width)
  {
    hide NumBytes, TwoByteValue, FourByteValue;
    var s := NumBytes(n);
    assert forall i :: 0 <= i < n.width ==> data[i] == s[i];
    if n.width == 1 {
      OneByte(n.value);
    } else if n.width == 2 {
      FromTwoBytes(n.value);
    } else {
      FromFourBytes(n.value);
    }
  }

  /** A byte string starts with a compressed integer exactly when it starts with one of its spellings. */
  lemma ReadNumIff(data: seq<byte>, n: Num)
    ensures ReadNum(data) == Got(n, n.width) <==> NumOk(n) && NumBytes(n) <= data
    ensures ReadNum(data).Got? ==> ReadNum(data).size == ReadNum(data).value.width
  {
    hide ReadNum, NumBytes, NumOk;
    if ReadNum(data).Got? {
      ReadNumSound(data);
    }
    if NumOk(n) && NumBytes(n) <= data {
      ReadNumComplete(n, data);
    }
  }

  // ---- types

  const ELEMENT_VOID: byte := 0x01
  const ELEMENT_PTR: byte := 0x0F
  const ELEMENT_BYREF: byte := 0x10
  const ELEMENT_VALUETYPE: byte := 0x11
  const ELEMENT_CLASS: byte := 0x12
  const ELEMENT_VAR: byte := 0x13
  const ELEMENT_ARRAY: byte := 0x14
  const ELEMENT_GENERICINST: byte := 0x15
  const ELEMENT_TYPEDBYREF: byte := 0x16
  const ELEMENT_FNPTR: byte := 0x1B
  const ELEMENT_SZARRAY: byte := 0x1D
  const ELEMENT_MVAR: byte := 0x1E
  const ELEMENT_CMOD_REQD: byte := 0x1F
  const ELEMENT_CMOD_OPT: byte := 0x20
  const ELEMENT_SENTINEL: byte := 0x41

  /** BOOLEAN to STRING, I, U and OBJECT. */
  predicate IsSimple(b: byte) {
    0x02 <= b <= 0x0E || b == 0x18 || b == 0x19 || b == 0x1C
  }

  /** Element types the parser refuses: pointers, function pointers and general arrays. */
  predicate IsRefused(b: byte) {
    b == ELEMENT_PTR || b == ELEMENT_FNPTR || b == ELEMENT_ARRAY
  }

  predicate IsStructured(b: byte) {
    || b == ELEMENT_VALUETYPE || b == ELEMENT_CLASS || b == ELEMENT_VAR || b == ELEMENT_GENERICINST
    || b == ELEMENT_SZARRAY || b == ELEMENT_MVAR
  }

  /** Bytes the parser's switch has no case for: it takes them as types of one byte. */
  predicate IsOther(b: byte) {
    !IsSimple(b) && !IsRefused(b) && !IsStructured(b)
  }

  predicate IsModifier(b: byte) {
    b == ELEMENT_CMOD_OPT || b == ELEMENT_CMOD_REQD
  }

  datatype Type =
    | Simple(elem: byte)
    | Other(elem: byte)
    | Named(isValue: bool, token: Num)
    | SzArray(item: Type)
    | Generic(isValue: bool, token: Num, count: Num, args: seq<Type>)
    | Var(isMethod: bool, index: Num)

  predicate TypeOk(t: Type) {
    match t
    case Simple(b) => IsSimple(b)
    case Other(b) => IsOther(b)
    case Named(_, token) => NumOk(token)
    case SzArray(item) => TypeOk(item) && !(item.Other? && IsModifier(item.elem))
    case Generic(_, token, count, args) => NumOk(token) && NumOk(count) && |args| == count.value && TypesOk(args)
    case Var(_, index) => NumOk(index)
  }

  predicate TypesOk(ts: seq<Type>) {
    ts != [] ==> TypeOk(ts[0]) && TypesOk(ts[1..])
  }

  function NamedByte(isValue: bool): byte {
    if isValue then ELEMENT_VALUETYPE else ELEMENT_CLASS
  }

  /** What stands between GENERICINST and the arguments. */
  datatype Head = Head(isValue: bool, token: Num, count: Num)

  predicate HeadOk(h: Head) {
    NumOk(h.token) && NumOk(h.count)
  }

  function HeadBytes(h: Head): (bytes: seq<byte>)
    requires HeadOk(h)
    ensures |bytes| == 1 + h.token.width + h.count.width
  {
    [NamedByte(h.isValue)] + NumBytes(h.token) + NumBytes(h.count)
  }

  /** The bytes of a type. */
  function Encode(t: Type): (bytes: seq<byte>)
    requires TypeOk(t)
    ensures |bytes| >= 1
  {
    match t
    case Simple(b) => [b]
    case Other(b) => [b]
    case Named(isValue, token) => [NamedByte(isValue)] + NumBytes(token)
    case SzArray(item) => [ELEMENT_SZARRAY] + Encode(item)
    case Generic(isValue, token, count, args) =>
      [ELEMENT_GENERICINST] + HeadBytes(Head(isValue, token, count)) + EncodeAll(args)
    case Var(isMethod, index) => [if isMethod then ELEMENT_MVAR else ELEMENT_VAR] + NumBytes(index)
  }

  function EncodeAll(ts: seq<Type>): (bytes: seq<byte>)
    requires TypesOk(ts)
    ensures |bytes| >= |ts|
  {
    if ts == [] then [] else Encode(ts[0]) + EncodeAll(ts[1..])
  }

  // ---- reading types

  /** The type a byte string starts with, if it starts with one. */
  function ReadType(data: seq<byte>): (r: Parsed<Type>)
    ensures r.Got? ==> 1 <= r.size <= |data|
    decreases |data|, 0, 0
  {
    if data == [] then Bad
    else if IsSimple(data[0]) then Got(Simple(data[0]), 1)
    else if IsOther(data[0]) then Got(Other(data[0]), 1)
    else if IsRefused(data[0]) then Bad
    else if data[0] == ELEMENT_SZARRAY then
      if 1 < |data| && IsModifier(data[1]) then Bad
      else
        (match ReadType(data[1..])
         case Bad => Bad
         case Got(item, n) => Got(SzArray(item), 1 + n))
    else if data[0] == ELEMENT_GENERICINST then ReadGeneric(data)
    else
      match ReadNum(data[1..])
      case Bad => Bad
      case Got(num, n) =>
        ReadNumFits(data[1..]);
        if data[0] == ELEMENT_VAR || data[0] == ELEMENT_MVAR then Got(Var(data[0] == ELEMENT_MVAR, num), 1 + n)
        else Got(Named(data[0] == ELEMENT_VALUETYPE, num), 1 + n)
  }

  function ReadHead(data: seq<byte>): (r: Parsed<Head>)
    ensures r.Got? ==> 1 <= r.size <= |data|
  {
    if data == [] || (data[0] != ELEMENT_CLASS && data[0] != ELEMENT_VALUETYPE) then Bad
    else
      match ReadNum(data[1..])
      case Bad => Bad
      case Got(token, n) =>
        ReadNumFits(data[1..]);
        match ReadNum(data[1 + n..])
        case Bad => Bad
        case Got(count, m) =>
          ReadNumFits(data[1 + n..]);
          Got(Head(data[0] == ELEMENT_VALUETYPE, token, count), 1 + n + m)
  }

  function ReadGeneric(data: seq<byte>): (r: Parsed<Type>)
    requires data != []
    ensures r.Got? ==> 1 <= r.size <= |data|
    decreases |data| - 1, 2, 0
  {
    match ReadHead(data[1..])
    case Bad => Bad
    case Got(h, n) =>
      match ReadTypes(data[1 + n..], h.count.value)
      case Bad => Bad
      case Got(args, k) => Got(Generic(h.isValue, h.token, h.count, args), 1 + n + k)
  }

  function ReadTypes(data: seq<byte>, count: nat): (r: Parsed<seq<Type>>)
    ensures r.Got? ==> r.size <= |data|
    decreases |data|, 1, count
  {
    if count == 0 then Got([], 0)
    else
      match ReadType(data)
      case Bad => Bad
      case Got(t, n) =>
        match ReadTypes(data[n..], count - 1)
        case Bad => Bad
        case Got(ts, k) => Got([t] + ts, n + k)
  }

  lemma ReadNumFits(data: seq<byte>)
    ensures ReadNum(data).Got? ==> 1 <= ReadNum(data).size <= |data|
  {
  }

  // ---- reading is exact

  /** What is read is well formed, and the bytes taken are its encoding. */
  lemma {:induction false} ReadTypeSound(data: seq<byte>)
    requires ReadType(data).Got?
    ensures var r := ReadType(data); TypeOk(r.value) && r.size == |Encode(r.value)| && Encode(r.value) <= data
    decreases |data|, 0, 0
  {
    hide ReadGeneric, ReadNum, NumBytes;
    if IsSimple(data[0]) || IsOther(data[0]) {
    } else if data[0] == ELEMENT_SZARRAY {
      ReadTypeSound(data[1..]);
      SzArraySound(data);
    } else if data[0] == ELEMENT_GENERICINST {
      GenericSound(data);
    } else {
      var num := ReadNum(data[1..]).value;
      ReadNumIff(data[1..], num);
      assert data == [data[0]] + data[1..];
    }
  }

  lemma SzArraySound(data: seq<byte>)
    requires data != [] && data[0] == ELEMENT_SZARRAY && ReadType(data).Got? && ReadType(data[1..]).Got?
    requires var r := ReadType(data[1..]);
             TypeOk(r.value) && r.size == |Encode(r.value)| && Encode(r.value) <= data[1..]
    ensures var r := ReadType(data); TypeOk(r.value) && r.size == |Encode(r.value)| && Encode(r.value) <= data
  {
    hide ReadGeneric, ReadNum;
    var item := ReadType(data[1..]).value;
    assert data == [data[0]] + data[1..];
    if item.Other? {
      assert Encode(item)[0] == data[1..][0];
    }
  }

  lemma ReadHeadSound(data: seq<byte>)
    requires ReadHead(data).Got?
    ensures var r := ReadHead(data); HeadOk(r.value) && r.size == |HeadBytes(r.value)| && HeadBytes(r.value) <= data
  {
    hide ReadNum, NumBytes;
    var n := ReadNum(data[1..]).size;
    ReadNumSound(data[1..]);
    ReadNumSound(data[1 + n..]);
    var m := ReadNum(data[1 + n..]).size;
    assert data[..1 + n + m] == [data[0]] + data[1..][..n] + data[1 + n..][..m];
  }

  lemma ReadHeadComplete(h: Head, rest: seq<byte>)
    requires HeadOk(h)
    ensures ReadHead(HeadBytes(h) + rest) == Got(h, |HeadBytes(h)|)
  {
    hide ReadNum, NumBytes;
    var data := HeadBytes(h) + rest;
    assert data[1..] == NumBytes(h.token) + (NumBytes(h.count) + rest);
    ReadNumComplete(h.token, data[1..]);
    assert data[1 + h.token.width..] == NumBytes(h.count) + rest;
    ReadNumComplete(h.count, data[1 + h.token.width..]);
  }

  lemma {:induction false} GenericSound(data: seq<byte>)
    requires data != [] && ReadGeneric(data).Got? && data[0] == ELEMENT_GENERICINST
    ensures var r := ReadGeneric(data); TypeOk(r.value) && r.size == |Encode(r.value)| && Encode(r.value) <= data
    decreases |data| - 1, 2, 0
  {
    hide ReadHead, HeadBytes, ReadTypes;
    ReadHeadSound(data[1..]);
    var h, n := ReadHead(data[1..]).value, ReadHead(data[1..]).size;
    ReadTypesSound(data[1 + n..], h.count.value);
    var k := ReadTypes(data[1 + n..], h.count.value).size;
    assert data[..1 + n + k] == [data[0]] + data[1..][..n] + data[1 + n..][..k];
  }

  lemma {:induction false} ReadTypesSound(data: seq<byte>, count: nat)
    requires ReadTypes(data, count).Got?
    ensures var r := ReadTypes(data, count);
            |r.value| == count && TypesOk(r.value) && r.size == |EncodeAll(r.value)| && EncodeAll(r.value) <= data
    decreases |data|, 1, count
  {
    hide ReadType;
    if count > 0 {
      ReadTypeSound(data);
      var r := ReadType(data);
      ReadTypesSound(data[r.size..], count - 1);
      var rest := ReadTypes(data[r.size..], count - 1).value;
      assert ([r.value] + rest)[1..] == rest;
      assert data == data[..r.size] + data[r.size..];
    }
  }

  /** A well-formed type is read back from its encoding, whatever follows. */
  lemma {:induction false} ReadTypeComplete(t: Type, rest: seq<byte>)
    requires TypeOk(t)
    ensures ReadType(Encode(t) + rest) == Got(t, |Encode(t)|)
    decreases t
  {
    hide ReadGeneric, ReadNum, NumBytes;
    var data := Encode(t) + rest;
    match t {
      case Simple(b) =>
      case Other(b) =>
      case Named(isValue, token) =>
        assert data[1..] == NumBytes(token) + rest;
        ReadNumIff(data[1..], token);
      case Var(isMethod, index) =>
        assert data[1..] == NumBytes(index) + rest;
        ReadNumIff(data[1..], index);
      case SzArray(item) =>
        assert data[1..] == Encode(item) + rest;
        ReadTypeComplete(item, rest);
        FirstByte(item);
      case Generic(_, _, _, _) =>
        GenericComplete(t, rest);
    }
  }

  lemma FirstByte(t: Type)
    requires TypeOk(t)
    ensures IsModifier(Encode(t)[0]) ==> t.Other? && IsModifier(t.elem)
  {
    hide NumBytes;
  }

  lemma {:induction false} GenericComplete(t: Type, rest: seq<byte>)
    requires TypeOk(t) && t.Generic?
    ensures ReadGeneric(Encode(t) + rest) == Got(t, |Encode(t)|)
    decreases t, 0
  {
    hide ReadHead, HeadBytes, ReadTypes, ReadType;
    var data := Encode(t) + rest;
    var h := Head(t.isValue, t.token, t.count);
    assert data[1..] == HeadBytes(h) + (EncodeAll(t.args) + rest);
    ReadHeadComplete(h, EncodeAll(t.args) + rest);
    assert data[1 + |HeadBytes(h)|..] == EncodeAll(t.args) + rest;
    ReadTypesComplete(t.args, rest);
  }

  lemma {:induction false} ReadTypesComplete(ts: seq<Type>, rest: seq<byte>)
    requires TypesOk(ts)
    ensures ReadTypes(EncodeAll(ts) + rest, |ts|) == Got(ts, |EncodeAll(ts)|)
    decreases ts
  {
    hide ReadType, Encode;
    if ts == [] {
    } else {
      var head, tail := Encode(ts[0]), EncodeAll(ts[1..]) + rest;
      var data := EncodeAll(ts) + rest;
      assert data == head + tail;
      ReadTypeComplete(ts[0], tail);
      assert data[|head|..] == tail;
      ReadTypesComplete(ts[1..], rest);
      assert [ts[0]] + ts[1..] == ts;
    }
  }

  /** The grammar is unambiguous and prefix-free: a byte string starts with at most one type. */
  lemma OneTypeAtMost(data: seq<byte>, a: Type, b: Type)
    requires TypeOk(a) && TypeOk(b) && Encode(a) <= data && Encode(b) <= data
    ensures a == b
  {
    hide ReadType, Encode;
    ReadTypeComplete(a, data[|Encode(a)|..]);
    ReadTypeComplete(b, data[|Encode(b)|..]);
    assert data == Encode(a) + data[|Encode(a)|..];
    assert data == Encode(b) + data[|Encode(b)|..];
  }

  /** A byte string starts with a type exactly when one can be read. */
  lemma ReadTypeIff(data: seq<byte>, t: Type)
    ensures ReadType(data) == Got(t, if TypeOk(t) then |Encode(t)| else 0) <==> TypeOk(t) && Encode(t) <= data
    ensures ReadType(data).Got? ==> TypeOk(ReadType(data).value) && Encode(ReadType(data).value) <= data
  {
    hide ReadType, Encode;
    if TypeOk(t) && Encode(t) <= data {
      ReadTypeComplete(t, data[|Encode(t)|..]);
      assert data == Encode(t) + data[|Encode(t)|..];
    }
    if ReadType(data).Got? {
      ReadTypeSound(data);
    }
  }
}
