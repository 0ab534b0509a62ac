/** The recursive name printer over the bytes of a type, against the name of the type's tree. */
module SignatureNames {
  import opened Bytes
  import opened SignatureTrees
  import opened SignatureGrammar
  import opened SignatureParser

  /** Names of the types behind encoded tokens: a metadata lookup. */
  type Names = nat -> string

  /** No byte in the tree is one the grammar does not list. */
  predicate Supported(t: Type) {
    match t
    case Simple(_) => true
    case Other(_) => false
    case Named(_, _) => true
    case SzArray(item) => Supported(item)
    case Generic(_, _, _, args) => AllSupported(args)
    case Var(_, _) => true
  }

  predicate AllSupported(ts: seq<Type>) {
    ts != [] ==> Supported(ts[0]) && AllSupported(ts[1..])
  }

  function SimpleName(b: byte): string
    requires IsSimple(b)
  {
    match b as int
    case 0x02 => "System.Boolean"
    case 0x03 => "System.Char"
    case 0x04 => "System.SByte"
    case 0x05 => "System.Byte"
    case 0x06 => "System.Int16"
    case 0x07 => "System.UInt16"
    case 0x08 => "System.Int32"
    case 0x09 => "System.UInt32"
    case 0x0A => "System.Int64"
    case 0x0B => "System.UInt64"
    case 0x0C => "System.Single"
    case 0x0D => "System.Double"
    case 0x0E => "System.String"
    case 0x18 => "System.IntPtr"
    case 0x19 => "System.UIntPtr"
    case _ => "System.Object"
  }

  function Digit(d: nat): char
    requires d < 10
  {
    ['0', '1', '2', '3', '4', '5', '6', '7', '8', '9'][d]
  }

  function Decimal(n: nat): string {
    if n < 10 then [Digit(n)] else Decimal(n / 10) + [Digit(n % 10)]
  }

  /** The name of a type: arrays get brackets behind, generic arguments stand in brackets, variables are numbered. */
  function NameOf(t: Type, names: Names): string
    requires TypeOk(t) && Supported(t)
  {
    match t
    case Simple(b) => SimpleName(b)
    case Named(_, token) => names(token.value)
    case SzArray(item) => NameOf(item, names) + "[]"
    case Generic(_, token, _, args) => names(token.value) + "[" + NamesOf(args, names) + "]"
    case Var(isMethod, index) => (if isMethod then "!!" else "!") + Decimal(index.value)
  }

  /** The names of several types, with commas in between. */
  function NamesOf(ts: seq<Type>, names: Names): string
    requires TypesOk(ts) && AllSupported(ts)
  {
    if ts == [] then ""
    else NameOf(ts[0], names) + (if |ts| > 1 then "," else "") + NamesOf(ts[1..], names)
  }

  predicate SupportedParam(p: Param) {
    ParamOk(p) && Supported(p.typ)
  }

  function ParamName(p: Param, names: Names): string
    requires SupportedParam(p)
  {
    NameOf(p.typ, names) + if p.byRef then "&" else ""
  }

  /** The type the rest of the signature starts with. */
  ghost predicate StartsWith(c: Cursor, p: Param)
    requires c.Valid()
    reads c
  {
    SupportedParam(p) && ParamBytes(p) <= c.Rest()
  }

  lemma FirstOf(t: Type)
    requires TypeOk(t) && Supported(t)
    ensures var b := Encode(t)[0];
            && b != ELEMENT_BYREF
            && (match t
                case Simple(e) => IsSimple(b) && b == e
                case Named(isValue, _) => b == NamedByte(isValue)
                case SzArray(_) => b == ELEMENT_SZARRAY
                case Generic(_, _, _, _) => b == ELEMENT_GENERICINST
                case Var(isMethod, _) => b == if isMethod then ELEMENT_MVAR else ELEMENT_VAR)
            && !IsParamPrefix(b)
  {
    hide NumBytes, HeadBytes;
  }

  /** The cursor, past a prefix of what is left. */
  lemma Advanced(c: Cursor, front: seq<byte>, back: seq<byte>)
    requires c.Valid() && front + back <= c.Rest()
    ensures c.cur + |front| <= c.end && back <= c.memory[c.cur + |front|..c.end]
    ensures forall i :: 0 <= i < |front| ==> c.memory[c.cur + i] == front[i]
  {
    var rest := c.Rest();
    assert rest[..|front + back|] == front + back;
    assert c.memory[c.cur + |front|..c.end] == rest[|front|..];
    forall i | 0 <= i < |front| ensures c.memory[c.cur + i] == front[i] {
      assert rest[i] == (front + back)[i];
    }
    assert rest[|front|..][..|back|] == back;
  }

  /** A compressed integer at the cursor, read without looking where the signature ends; the cursor moves past it. */
  method UncompressData(c: Cursor, ghost n: Num) returns (value: nat)
    requires c.Valid() && NumOk(n) && NumBytes(n) <= c.Rest()
    modifies c
    ensures c.Valid() && value == n.value && c.cur == old(c.cur) + n.width
  {
    hide NumBytes;
    ReadNumComplete(n, c.Rest());
    var b: int := c.memory[c.cur];
    if b < 0x80 {
      value := b;
      c.cur := c.cur + 1;
    } else if b < 0xC0 {
      value := b % 0x40 * 0x100 + c.memory[c.cur + 1];
      c.cur := c.cur + 2;
    } else {
      value := ((b % 0x20 * 0x100 + c.memory[c.cur + 1]) * 0x100 + c.memory[c.cur + 2]) * 0x100 + c.memory[c.cur + 3];
      c.cur := c.cur + 4;
    }
  }

  /**
   The name of the type at the cursor, which moves exactly past it: by as many bytes as the parser consumes. The
   printer checks no bounds and relies on the parser having accepted the bytes.
   */
  method SigTypeTokName(c: Cursor, ghost p: Param, names: Names) returns (name: string)
    requires c.Valid() && StartsWith(c, p)
    modifies c
    ensures c.Valid() && c.cur == old(c.cur) + |ParamBytes(p)|
    ensures name == ParamName(p, names)
    decreases |Encode(p.typ)|, 2
  {
    hide NameOf, Supported, TypeOk, Encode;
    FirstOf(p.typ);
    var byRef := false;
    Advanced(c, if p.byRef then [ELEMENT_BYREF] else [], Encode(p.typ));
    if c.memory[c.cur] == ELEMENT_BYREF {
      c.cur := c.cur + 1;
      byRef := true;
    }
    name := TypeTokName(c, p.typ, names);
    if byRef {
      name := name + "&";
    }
  }

  method TypeTokName(c: Cursor, ghost t: Type, names: Names) returns (name: string)
    requires c.Valid() && TypeOk(t) && Supported(t) && Encode(t) <= c.Rest()
    modifies c
    ensures c.Valid() && c.cur == old(c.cur) + |Encode(t)|
    ensures name == NameOf(t, names)
    decreases |Encode(t)|, 1
  {
    hide NumBytes, HeadBytes;
    FirstOf(t);
    Advanced(c, Encode(t)[..1], Encode(t)[1..]);
    assert Encode(t)[..1] + Encode(t)[1..] == Encode(t);
    var b := c.memory[c.cur];
    assert b == Encode(t)[0];
    if IsSimple(b) {
      name := SimpleName(b);
      c.cur := c.cur + 1;
    } else if b == ELEMENT_CLASS || b == ELEMENT_VALUETYPE {
      c.cur := c.cur + 1;
      assert Encode(t)[1..] == NumBytes(t.token);
      var token := UncompressData(c, t.token);
      name := names(token);
    } else if b == ELEMENT_SZARRAY {
      c.cur := c.cur + 1;
      assert Encode(t)[1..] == Encode(t.item);
      ItemStarts(t.item);
      name := SigTypeTokName(c, Param(false, t.item), names);
      name := name + "[]";
    } else if b == ELEMENT_GENERICINST {
      c.cur := c.cur + 1;
      name := GenericName(c, t, names);
    } else {
      c.cur := c.cur + 1;
      assert Encode(t)[1..] == NumBytes(t.index);
      var number := UncompressData(c, t.index);
      name := (if b == ELEMENT_MVAR then "!!" else "!") + Decimal(number);
    }
  }

  /** The name of a generic instantiation, after its first byte. */
  method GenericName(c: Cursor, ghost t: Type, names: Names) returns (name: string)
    requires c.Valid() && TypeOk(t) && Supported(t) && t.Generic? && Encode(t)[1..] <= c.Rest()
    modifies c
    ensures c.Valid() && c.cur == old(c.cur) + |Encode(t)| - 1
    ensures name == NameOf(t, names)
    decreases |Encode(t)|, 0
  {
    hide NumBytes, Encode, EncodeAll, NameOf, NamesOf, TypeOk, Supported;
    ghost var head := Named(t.isValue, t.token);
    GenericBytes(t);
    GenericPartsOk(t, names);
    ItemStarts(head);
    Advanced(c, Encode(head), NumBytes(t.count) + EncodeAll(t.args));
    name := SigTypeTokName(c, Param(false, head), names);
    Advanced(c, NumBytes(t.count), EncodeAll(t.args));
    var num := UncompressData(c, t.count);
    name := ArgumentNames(c, t.args, num, names, name + "[");
    name := name + "]";
  }

  /** The names of `num` types, after what has been printed so far. */
  method ArgumentNames(c: Cursor, ghost ts: seq<Type>, num: nat, names: Names, start: string) returns (name: string)
    requires c.Valid() && TypesOk(ts) && AllSupported(ts) && |ts| == num && EncodeAll(ts) <= c.Rest()
    modifies c
    ensures c.Valid() && c.cur == old(c.cur) + |EncodeAll(ts)|
    ensures name == start + NamesOf(ts, names)
    decreases |EncodeAll(ts)|, 3
  {
    hide Encode, NameOf, TypeOk, Supported;
    ghost var left, end := ts, c.cur + |EncodeAll(ts)|;
    name := start;
    for i := 0 to num
      invariant c.Valid() && TypesOk(left) && AllSupported(left) && |left| == num - i
      invariant EncodeAll(left) <= c.Rest() && c.cur + |EncodeAll(left)| == end
      invariant |EncodeAll(left)| <= |EncodeAll(ts)|
      invariant name + NamesOf(left, names) == start + NamesOf(ts, names)
    {
      ItemStarts(left[0]);
      Advanced(c, Encode(left[0]), EncodeAll(left[1..]));
      var item := SigTypeTokName(c, Param(false, left[0]), names);
      name := name + item;
      if i != num - 1 {
        name := name + ",";
      }
      left := left[1..];
    }
  }

  lemma GenericPartsOk(t: Type, names: Names)
    requires TypeOk(t) && Supported(t) && t.Generic?
    ensures TypeOk(Named(t.isValue, t.token)) && Supported(Named(t.isValue, t.token)) && NumOk(t.count)
    ensures |t.args| == t.count.value && TypesOk(t.args) && AllSupported(t.args)
    ensures NameOf(t, names) == NameOf(Named(t.isValue, t.token), names) + "[" + NamesOf(t.args, names) + "]"
    ensures |Encode(t)| == 1 + |Encode(Named(t.isValue, t.token))| + t.count.width + |EncodeAll(t.args)|
  {
    hide NumBytes;
  }

  lemma GenericBytes(t: Type)
    requires TypeOk(t) && t.Generic?
    ensures Encode(t)[1..] == Encode(Named(t.isValue, t.token)) + (NumBytes(t.count) + EncodeAll(t.args))
  {
    hide NumBytes;
  }

  lemma ItemStarts(t: Type)
    requires TypeOk(t) && Supported(t)
    ensures SupportedParam(Param(false, t)) && ParamBytes(Param(false, t)) == Encode(t)
  {
    FirstOf(t);
  }

  /** Parser and printer agree: on a supported type, whatever follows it, both move past exactly its encoding. */
  method ParseThenPrint(memory: seq<byte>, end: nat, ghost t: Type, names: Names)
    returns (ok: bool, parsed: nat, printed: nat, name: string)
    requires end < |memory| && TypeOk(t) && Supported(t) && Encode(t) <= memory[..end]
    ensures ok && parsed == printed == |Encode(t)| && name == NameOf(t, names)
  {
    hide Encode, NameOf, TypeOk, Supported, ReadType;
    var c := new Cursor(memory, end);
    ReadTypeComplete(t, memory[..end][|Encode(t)|..]);
    assert memory[..end] == Encode(t) + memory[..end][|Encode(t)|..];
    ok := c.ParseType();
    parsed := c.cur;
    var d := new Cursor(memory, end);
    ItemStarts(t);
    name := SigTypeTokName(d, Param(false, t), names);
    printed := d.cur;
  }
}
