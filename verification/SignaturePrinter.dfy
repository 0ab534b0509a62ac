/**
 The iterative signature printer: one loop over the bytes with a stack of outstanding generic arguments, against a
 recursive printer over trees.
 */
module SignaturePrinter {
  import opened Bytes
  import opened SignatureTrees
  import opened SignatureNames

  datatype Option<+T> = None | Some(value: T)

  /**
   Metadata lookups by encoded token: the name with the enclosing types in front, the bare name, and the number
   behind the name's last tick, if there is one.
   */
  datatype Lookup = Lookup(fullName: nat -> string, bareName: nat -> string, arity: nat -> Option<int>)

  const ELEMENT_END: byte := 0x00
  const BAD_LENGTH: nat := 0xFFFF_FFFF

  /** What the printer appends for a one-byte element; elements it does not know are printed as numbers. */
  function ElementText(b: byte): string {
    match b as int
    case 0x01 => "System.Void"
    case 0x02 => "System.Boolean"
    case 0x03 => "System.Char16"
    case 0x04 => "System.SByte"
    case 0x05 => "System.Byte"
    case 0x06 => "System.Int16"
    case 0x07 => "System.UInt16"
    case 0x08 => "System.Int32"
    case 0x09 => "System.UInt32"
    case 0x0A => "System.Int64"
    case 0x0B => "System.UInt64"
    case 0x0C => "System.Single"
    case 0x0D => "System.Double"
    case 0x0E => "System.String"
    case 0x10 => "ref"
    case 0x1C => "System.Object"
    case _ => Decimal(b)
  }

  // ---- the loop as a machine

  /** The loop's variables: index, stack, pending brackets, the name being built, finished names and their number. */
  datatype PState = PState(i: nat, stack: seq<int>, app: string, cur: string, names: seq<string>, count: nat)

  datatype PResult = Go(s: PState) | Failed

  /** The integer at a position and the bytes it takes, as the uncompressing helper reports them. */
  function Uncompress(data: seq<byte>, at: nat): (r: (nat, nat))
    ensures r.1 >= 1
  {
    if at > |data| then (0, BAD_LENGTH)
    else
      match ReadNum(data[at..])
      case Bad => (0, BAD_LENGTH)
      case Got(n, size) =>
        ReadNumFits(data[at..]);
        (n.value, size)
  }

  function Top(stack: seq<int>): int
    requires stack != []
  {
    stack[|stack| - 1]
  }

  function Pop(stack: seq<int>): (r: seq<int>)
    requires stack != []
    ensures |r| == |stack| - 1
  {
    stack[..|stack| - 1]
  }

  function Decremented(stack: seq<int>): (r: seq<int>)
    ensures |r| == |stack|
  {
    if stack == [] then [] else Pop(stack) + [Top(stack) - 1]
  }

  /** A comma, if more arguments of the innermost generic are to come. */
  function Comma(stack: seq<int>): string {
    if stack != [] && Top(stack) > 0 then ", " else ""
  }

  /** Closes the generics that have all their arguments. */
  function Unwind(stack: seq<int>): (r: (seq<int>, string))
    decreases |stack|
  {
    if stack == [] || Top(stack) != 0 then (stack, "")
    else
      var rest := Unwind(Pop(stack));
      (rest.0, ">" + Comma(Pop(stack)) + rest.1)
  }

  /** What one finished type does to the stack, and what it appends behind the type's name. */
  function Complete(stack: seq<int>): (seq<int>, string) {
    var d := Decremented(stack);
    var u := Unwind(d);
    (u.0, Comma(d) + u.1)
  }

  /** The part of the loop after the switch: `text` has been appended, `i` is the last byte consumed. */
  function Deliver(s: PState, i: nat, text: string): PResult {
    var c := Complete(s.stack);
    Settle(s.names, s.count, i, c.0, s.cur + text + c.1)
  }

  /** The stack and name after a type: at a type boundary the name is stored. */
  function Settle(names: seq<string>, count: nat, i: nat, stack: seq<int>, cur: string): PResult {
    if stack != [] then Go(PState(i + 1, stack, "", cur, names, count))
    else if count >= |names| then Failed
    else Go(PState(i + 1, [], "", "", names[count := cur], count + 1))
  }

  /** Array elements after position i. */
  function MoreArrays(data: seq<byte>, i: nat): nat
    decreases |data| - i
  {
    if i + 1 < |data| && data[i + 1] == ELEMENT_SZARRAY then 1 + MoreArrays(data, i + 1) else 0
  }

  function Brackets(k: nat): string {
    if k == 0 then "" else "[]" + Brackets(k - 1)
  }

  /** The start of a generic instantiation: its name, an angle bracket, and one more level on the stack. */
  function OpenGeneric(lk: Lookup, data: seq<byte>, s: PState): PResult {
    var (token, size) := Uncompress(data, s.i + 2);
    match lk.arity(token)
    case None => Failed
    case Some(n) =>
      Go(s.(i := s.i + 2 + size + 1, stack := Decremented(s.stack) + [n], cur := s.cur + lk.bareName(token) + "<"))
  }

  /** One iteration. */
  function Step(data: seq<byte>, lk: Lookup, s: PState): (r: PResult)
    requires s.i < |data|
    ensures r.Go? ==> r.s.i > s.i && |r.s.names| == |s.names|
  {
    var b := data[s.i];
    if b == ELEMENT_VALUETYPE || b == ELEMENT_CLASS then
      var (token, size) := Uncompress(data, s.i + 1);
      Deliver(s, s.i + size, lk.fullName(token) + s.app)
    else if b == ELEMENT_SZARRAY then
      var k := MoreArrays(data, s.i);
      Go(s.(i := s.i + k + 1, app := s.app + Brackets(1 + k)))
    else if b == ELEMENT_MVAR || b == ELEMENT_VAR then
      Deliver(s, s.i + Uncompress(data, s.i).1, "T" + s.app)
    else if b == ELEMENT_GENERICINST then OpenGeneric(lk, data, s)
    else if b == ELEMENT_END then Go(s.(i := s.i + 1))
    else Deliver(s, s.i, ElementText(b) + s.app)
  }

  /** The loop from a state on: the names, or nothing if it gives up. */
  function Run(data: seq<byte>, lk: Lookup, s: PState): Option<seq<string>>
    decreases |data| - s.i
  {
    if s.i >= |data| then Some(s.names)
    else
      match Step(data, lk, s)
      case Failed => None
      case Go(t) => Run(data, lk, t)
  }

  const CALLCONV_GENERIC_BIT: nat := 0x10

  predicate GenericBit(data: seq<byte>) {
    data != [] && (data[0] as int) / CALLCONV_GENERIC_BIT % 2 == 1
  }

  function TypeArgumentCount(data: seq<byte>): nat {
    if |data| > 1 && GenericBit(data) then data[1] else 0
  }

  function ArgumentCount(data: seq<byte>): nat {
    if |data| > 2 && GenericBit(data) then data[2] else if |data| > 1 then data[1] else 0
  }

  /** Where the loop starts. */
  function StartState(data: seq<byte>): PState {
    PState(if TypeArgumentCount(data) > 0 then 3 else 2, [], "", "", seq(ArgumentCount(data) + 1, _ => ""), 0)
  }

  // ---- the loop

  /** Brackets for an array element, and for those that follow it directly. */
  method SkipArrays(data: seq<byte>, i: nat, app: string) returns (next: nat, brackets: string)
    requires i < |data|
    ensures next == i + MoreArrays(data, i) && brackets == app + Brackets(1 + MoreArrays(data, i))
  {
    next, brackets := i, app + "[]";
    while next + 1 < |data| && data[next + 1] == ELEMENT_SZARRAY
      invariant i <= next < |data|
      invariant next + MoreArrays(data, next) == i + MoreArrays(data, i)
      invariant brackets + Brackets(MoreArrays(data, next)) == app + Brackets(1 + MoreArrays(data, i))
    {
      brackets := brackets + "[]";
      next := next + 1;
    }
  }

  /** Pops the levels without outstanding arguments. */
  method CloseGenerics(stack: seq<int>, cur: string) returns (left: seq<int>, name: string)
    ensures left == Unwind(stack).0 && name == cur + Unwind(stack).1
  {
    left, name := stack, cur;
    while left != [] && Top(left) == 0
      invariant Unwind(left).0 == Unwind(stack).0
      invariant name + Unwind(left).1 == cur + Unwind(stack).1
      decreases |left|
    {
      left := Pop(left);
      name := name + ">";
      if left != [] && Top(left) > 0 {
        name := name + ", ";
      }
    }
  }

  /** What a finished type does: counted off its level, closed levels, and at a type boundary the name is stored. */
  method Finish(s: PState, i: nat, text: string) returns (r: PResult)
    ensures r == Deliver(s, i, text)
  {
    hide Unwind;
    var cur := s.cur + text;
    var stack := s.stack;
    if stack != [] {
      stack := Pop(stack) + [Top(stack) - 1];
      if Top(stack) > 0 {
        cur := cur + ", ";
      }
    }
    assert stack == Decremented(s.stack) && cur == s.cur + text + Comma(stack);
    ghost var d := stack;
    stack, cur := CloseGenerics(stack, cur);
    assert cur == s.cur + text + (Comma(d) + Unwind(d).1);
    if stack != [] {
      return Go(PState(i + 1, stack, "", cur, s.names, s.count));
    }
    if s.count >= |s.names| {
      return Failed;
    }
    return Go(PState(i + 1, [], "", "", s.names[s.count := cur], s.count + 1));
  }

  /** The printer: the names of the return type and the arguments. */
  method TryParseSignatureTypes(data: seq<byte>, lk: Lookup) returns (ok: bool, names: seq<string>)
    ensures ok == Run(data, lk, StartState(data)).Some?
    ensures ok ==> names == Run(data, lk, StartState(data)).value
  {
    hide Deliver, OpenGeneric;
    var s := StartState(data);
    while s.i < |data|
      invariant Run(data, lk, s) == Run(data, lk, StartState(data))
      decreases |data| - s.i
    {
      var b := data[s.i];
      var r;
      if b == ELEMENT_VALUETYPE || b == ELEMENT_CLASS {
        var (token, size) := Uncompress(data, s.i + 1);
        r := Finish(s, s.i + size, lk.fullName(token) + s.app);
      } else if b == ELEMENT_SZARRAY {
        var next, brackets := SkipArrays(data, s.i, s.app);
        r := Go(s.(i := next + 1, app := brackets));
      } else if b == ELEMENT_MVAR || b == ELEMENT_VAR {
        r := Finish(s, s.i + Uncompress(data, s.i).1, "T" + s.app);
      } else if b == ELEMENT_GENERICINST {
        r := OpenGeneric(lk, data, s);
      } else if b == ELEMENT_END {
        r := Go(s.(i := s.i + 1));
      } else {
        r := Finish(s, s.i, ElementText(b) + s.app);
      }
      assert r == Step(data, lk, s);
      if r.Failed? {
        return false, [];
      }
      s := r.s;
    }
    return true, s.names;
  }

  // ---- the recursive printer

  /** Trees the printer is for: names with as many arguments as their arity says, one-byte counts and indices. */
  predicate Printable(t: Type, lk: Lookup) {
    match t
    case Simple(_) => true
    case Other(b) => b != ELEMENT_END && b != ELEMENT_BYREF
    case Named(_, _) => true
    case SzArray(item) => Printable(item, lk)
    case Generic(_, token, count, args) =>
      count.width == 1 && count.value >= 1 && lk.arity(token.value) == Some(count.value) && AllPrintable(args, lk)
    case Var(_, index) => index.width == 1
  }

  predicate AllPrintable(ts: seq<Type>, lk: Lookup) {
    ts != [] ==> Printable(ts[0], lk) && AllPrintable(ts[1..], lk)
  }

  /** The name of a type as one would write it down recursively. */
  function Pretty(t: Type, lk: Lookup): string {
    match t
    case Simple(b) => ElementText(b)
    case Other(b) => ElementText(b)
    case Named(_, token) => lk.fullName(token.value)
    case SzArray(item) => Pretty(item, lk) + "[]"
    case Generic(_, token, _, args) => lk.bareName(token.value) + "<" + PrettyArgs(args, lk) + ">"
    case Var(_, _) => "T"
  }

  function PrettyArgs(ts: seq<Type>, lk: Lookup): string {
    if ts == [] then ""
    else Pretty(ts[0], lk) + (if |ts| > 1 then ", " else "") + PrettyArgs(ts[1..], lk)
  }

  /** The same with brackets that are still to be placed: they end up behind the first name that is complete. */
  function Skewed(t: Type, lk: Lookup, app: string): string {
    match t
    case Simple(b) => ElementText(b) + app
    case Other(b) => ElementText(b) + app
    case Named(_, token) => lk.fullName(token.value) + app
    case SzArray(item) => Skewed(item, lk, app + "[]")
    case Generic(_, token, _, args) => lk.bareName(token.value) + "<" + SkewedArgs(args, lk, app) + ">"
    case Var(_, _) => "T" + app
  }

  function SkewedArgs(ts: seq<Type>, lk: Lookup, app: string): string {
    if ts == [] then ""
    else Skewed(ts[0], lk, app) + (if |ts| > 1 then ", " else "") + SkewedArgs(ts[1..], lk, "")
  }

  // ---- one type at a time

  /** Running on from a result. */
  function RunFrom(data: seq<byte>, lk: Lookup, r: PResult): Option<seq<string>> {
    if r.Failed? then None else Run(data, lk, r.s)
  }

  lemma RunIs(data: seq<byte>, lk: Lookup, s: PState)
    requires s.i < |data|
    ensures Run(data, lk, s) == RunFrom(data, lk, Step(data, lk, s))
  {
    hide Step;
  }

  lemma UncompressAt(data: seq<byte>, at: nat, n: Num)
    requires at <= |data| && NumOk(n) && NumBytes(n) <= data[at..]
    ensures Uncompress(data, at) == (n.value, n.width)
  {
    hide NumBytes, ReadNum;
    ReadNumComplete(n, data[at..]);
  }

  /** A type that is one element long, or a name: its text is delivered. */
  lemma LeafStep(data: seq<byte>, lk: Lookup, s: PState, t: Type)
    requires s.i <= |data| && TypeOk(t) && Printable(t, lk) && Encode(t) <= data[s.i..]
    requires t.Simple? || t.Other? || t.Named? || t.Var?
    ensures s.i < |data| && Step(data, lk, s) == Deliver(s, s.i + |Encode(t)| - 1, Skewed(t, lk, s.app))
  {
    hide NumBytes, Deliver, ReadNum;
    var e, rest := Encode(t), data[s.i..];
    assert rest[0] == e[0];
    match t {
      case Named(isValue, token) =>
        assert e[1..] == NumBytes(token);
        TailPrefix(e, rest);
        assert data[s.i + 1..] == rest[1..];
        UncompressAt(data, s.i + 1, token);
      case Var(isMethod, index) =>
        OneByteLength(data, s.i);
      case _ =>
    }
  }

  lemma OneByteLength(data: seq<byte>, at: nat)
    requires at < |data| && data[at] < 0x80
    ensures Uncompress(data, at).1 == 1
  {
  }

  lemma TailPrefix(e: seq<byte>, rest: seq<byte>)
    requires e != [] && e <= rest
    ensures e[1..] <= rest[1..]
  {
  }

  /** An array element passes one more pair of brackets on to what follows. */
  lemma ArrayStep(data: seq<byte>, lk: Lookup, s: PState)
    requires s.i + 1 < |data| && data[s.i] == ELEMENT_SZARRAY
    ensures Run(data, lk, s) == Run(data, lk, s.(i := s.i + 1, app := s.app + "[]"))
  {
    hide Run, Deliver, OpenGeneric;
    RunIs(data, lk, s);
    var t := s.(i := s.i + 1, app := s.app + "[]");
    if data[s.i + 1] == ELEMENT_SZARRAY {
      RunIs(data, lk, t);
      var k := MoreArrays(data, s.i + 1);
      assert MoreArrays(data, s.i) == 1 + k;
      assert Brackets(1 + (1 + k)) == "[]" + Brackets(1 + k);
      assert s.app + Brackets(1 + (1 + k)) == s.app + "[]" + Brackets(1 + k);
    } else {
      assert Brackets(1) == "[]";
    }
  }

  lemma GenericStep(data: seq<byte>, lk: Lookup, s: PState, t: Type)
    requires s.i <= |data| && TypeOk(t) && t.Generic? && Printable(t, lk) && Encode(t) <= data[s.i..]
    ensures s.i < |data|
    ensures Step(data, lk, s)
            == Go(s.(i := s.i + 1 + |HeadBytes(Head(t.isValue, t.token, t.count))|,
                     stack := Decremented(s.stack) + [t.count.value], cur := s.cur + lk.bareName(t.token.value) + "<"))
  {
    hide NumBytes, Deliver, ReadNum, Decremented, EncodeAll;
    var e, rest := Encode(t), data[s.i..];
    assert rest[0] == e[0];
    assert e == e[..2] + NumBytes(t.token) + (NumBytes(t.count) + EncodeAll(t.args));
    assert rest[2..] == data[s.i + 2..];
    assert rest[..|e|] == e;
    assert NumBytes(t.token) <= data[s.i + 2..] by {
      assert rest[2..][..t.token.width] == e[2..][..t.token.width];
    }
    UncompressAt(data, s.i + 2, t.token);
  }

  // ---- the stack

  lemma CountsOff(d: seq<int>, m: int)
    requires m > 1
    ensures Complete(d + [m]) == (d + [m - 1], ", ")
  {
    assert Pop(d + [m]) == d;
    assert Decremented(d + [m]) == d + [m - 1];
    assert ", " + "" == ", ";
  }

  lemma ClosesOff(d: seq<int>)
    ensures Complete(d + [1]) == (Unwind(d).0, ">" + (Comma(d) + Unwind(d).1))
  {
    assert Pop(d + [1]) == d;
    assert Decremented(d + [1]) == d + [0];
    assert Pop(d + [0]) == d;
    assert ">" + Comma(d) + Unwind(d).1 == ">" + (Comma(d) + Unwind(d).1);
    assert "" + (">" + (Comma(d) + Unwind(d).1)) == ">" + (Comma(d) + Unwind(d).1);
  }

  // ---- the loop prints trees

  /** From the first byte of a type, the loop gets to where its skewed name has been delivered. */
  lemma {:induction false} PrintsType(data: seq<byte>, lk: Lookup, s: PState, t: Type)
    requires s.i <= |data| && TypeOk(t) && Printable(t, lk) && Encode(t) <= data[s.i..]
    ensures Run(data, lk, s) == RunFrom(data, lk, Deliver(s, s.i + |Encode(t)| - 1, Skewed(t, lk, s.app)))
    decreases t
  {
    hide Step, Run, RunFrom, Complete, Settle, NumBytes, HeadBytes;
    match t {
      case SzArray(item) =>
        var t' := s.(i := s.i + 1, app := s.app + "[]");
        ArrayBytes(data, s.i, t);
        ArrayStep(data, lk, s);
        PrintsType(data, lk, t', item);
      case Generic(_, _, _, _) =>
        PrintsGeneric(data, lk, s, t);
      case _ =>
        LeafStep(data, lk, s, t);
        RunIs(data, lk, s);
    }
  }

  lemma ArrayBytes(data: seq<byte>, i: nat, t: Type)
    requires i <= |data| && TypeOk(t) && t.SzArray? && Encode(t) <= data[i..]
    ensures i + 1 < |data| && data[i] == ELEMENT_SZARRAY && Encode(t.item) <= data[i + 1..]
  {
    hide NumBytes, HeadBytes;
    var rest := data[i..];
    assert rest[0] == Encode(t)[0];
    assert Encode(t)[1..] == Encode(t.item);
    TailPrefix(Encode(t), rest);
    assert rest[1..] == data[i + 1..];
  }

  lemma {:induction false} PrintsGeneric(data: seq<byte>, lk: Lookup, s: PState, t: Type)
    requires s.i <= |data| && TypeOk(t) && t.Generic? && Printable(t, lk) && Encode(t) <= data[s.i..]
    ensures Run(data, lk, s) == RunFrom(data, lk, Deliver(s, s.i + |Encode(t)| - 1, Skewed(t, lk, s.app)))
    decreases t, 0
  {
    hide Step, Run, Complete, Settle, NumBytes, HeadBytes, Decremented, Unwind, Comma, SkewedArgs;
    GenericStep(data, lk, s, t);
    RunIs(data, lk, s);
    var d, n := Decremented(s.stack), |HeadBytes(Head(t.isValue, t.token, t.count))|;
    var name := lk.bareName(t.token.value) + "<";
    var s1 := s.(i := s.i + 1 + n, stack := d + [t.count.value], cur := s.cur + lk.bareName(t.token.value) + "<");
    assert s1.cur == s.cur + name;
    ArgumentBytes(data, s.i, t);
    PrintsArgs(data, lk, s1, t.args, d);
    var args, tail := SkewedArgs(t.args, lk, s.app), Comma(d) + Unwind(d).1;
    assert s1.cur + args + (">" + tail) == s.cur + (name + args + ">") + tail;
    DeliverGeneric(s, s.i + |Encode(t)| - 1, name + args + ">");
  }

  lemma DeliverGeneric(s: PState, i: nat, text: string)
    ensures var d := Decremented(s.stack);
            Deliver(s, i, text) == Settle(s.names, s.count, i, Unwind(d).0, s.cur + text + (Comma(d) + Unwind(d).1))
  {
    hide Settle, Unwind, Comma, Decremented;
  }

  lemma ArgumentBytes(data: seq<byte>, i: nat, t: Type)
    requires i <= |data| && TypeOk(t) && t.Generic? && Encode(t) <= data[i..]
    ensures var n := |HeadBytes(Head(t.isValue, t.token, t.count))|;
            i + 1 + n <= |data| && EncodeAll(t.args) <= data[i + 1 + n..] && |Encode(t)| == 1 + n + |EncodeAll(t.args)|
  {
    hide NumBytes, HeadBytes, EncodeAll;
    var n, rest := |HeadBytes(Head(t.isValue, t.token, t.count))|, data[i..];
    assert Encode(t)[1 + n..] == EncodeAll(t.args);
    assert rest[..|Encode(t)|] == Encode(t);
    assert rest[1 + n..] == data[i + 1 + n..];
    assert rest[1 + n..][..|EncodeAll(t.args)|] == Encode(t)[1 + n..];
  }

  /** The arguments of a generic, with its level on top of the levels in d. */
  lemma {:induction false} PrintsArgs(data: seq<byte>, lk: Lookup, s: PState, ts: seq<Type>, d: seq<int>)
    requires s.i <= |data| && TypesOk(ts) && AllPrintable(ts, lk) && EncodeAll(ts) <= data[s.i..]
    requires ts != [] && s.stack == d + [|ts|]
    ensures Run(data, lk, s)
            == RunFrom(data, lk, Settle(s.names, s.count, s.i + |EncodeAll(ts)| - 1, Unwind(d).0,
                                        s.cur + SkewedArgs(ts, lk, s.app) + (">" + (Comma(d) + Unwind(d).1))))
    decreases ts
  {
    hide Step, Run, RunFrom, Complete, Encode, Unwind, Comma, Skewed;
    var head, text := Encode(ts[0]), Skewed(ts[0], lk, s.app);
    HeadTail(data, s.i, ts);
    PrintsType(data, lk, s, ts[0]);
    if |ts| == 1 {
      ClosesOff(d);
      assert ts[1..] == [] && EncodeAll(ts) == head + EncodeAll([]);
      assert SkewedArgs(ts, lk, s.app) == text by { assert text + "" + "" == text; }
    } else {
      CountsOff(d, |ts|);
      var s2 := PState(s.i + |head|, d + [|ts| - 1], "", s.cur + text + ", ", s.names, s.count);
      assert Deliver(s, s.i + |head| - 1, text) == Go(s2);
      assert RunFrom(data, lk, Go(s2)) == Run(data, lk, s2) by { RunFromGo(data, lk, s2); }
      PrintsArgs(data, lk, s2, ts[1..], d);
      var rest, tail := SkewedArgs(ts[1..], lk, ""), ">" + (Comma(d) + Unwind(d).1);
      assert s2.cur + rest + tail == s.cur + (text + ", " + rest) + tail;
    }
  }

  lemma RunFromGo(data: seq<byte>, lk: Lookup, s: PState)
    ensures RunFrom(data, lk, Go(s)) == Run(data, lk, s)
  {
  }

  lemma HeadTail(data: seq<byte>, i: nat, ts: seq<Type>)
    requires i <= |data| && TypesOk(ts) && ts != [] && EncodeAll(ts) <= data[i..]
    ensures var n := |Encode(ts[0])|;
            && Encode(ts[0]) <= data[i..] && i + n <= |data| && EncodeAll(ts[1..]) <= data[i + n..]
            && |EncodeAll(ts)| == n + |EncodeAll(ts[1..])|
  {
    hide Encode;
    var e, n, rest := EncodeAll(ts), |Encode(ts[0])|, data[i..];
    assert rest[..|e|] == e;
    assert e[..n] == Encode(ts[0]) && e[n..] == EncodeAll(ts[1..]);
    assert rest[..n] == e[..n];
    assert rest[n..] == data[i + n..];
    assert rest[n..][..|e| - n] == e[n..];
  }
}
