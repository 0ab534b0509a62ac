/** Extending a method's local variable signature (section II.23.2.6 of ECMA-335) by the injected locals. */
module LocalSignature {
  import opened Bytes
  import opened SignatureTrees

  const LOCAL_SIG: byte := 0x07
  const BUFFER_SIZE: nat := 500

  /** A token in its encoded form: what is compressed into a signature. */
  type EncodedToken = t: nat | t < 0x2000_0000

  function TokenBytes(t: EncodedToken): (bytes: seq<byte>)
    ensures 1 <= |bytes| <= 4
  {
    NumBytes(Shortest(t))
  }

  /** The return type's signature and CallTargetReturn of it, or the token of CallTargetReturn for void methods. */
  datatype Return = Typed(signature: seq<byte>, spec: seq<byte>) | Void(token: EncodedToken)

  function ClassLocal(t: EncodedToken): seq<byte> {
    [ELEMENT_CLASS] + TokenBytes(t)
  }

  function ValueTypeLocal(t: EncodedToken): seq<byte> {
    [ELEMENT_VALUETYPE] + TokenBytes(t)
  }

  /** The locals the rewriting adds, in order. */
  function AddedLocals(ret: Return, exc: EncodedToken, state: EncodedToken): seq<seq<byte>> {
    (if ret.Typed? then [ret.signature] else [])
    + [ClassLocal(exc), if ret.Typed? then ret.spec else ValueTypeLocal(ret.token),
       ValueTypeLocal(state)]
  }

  function Concat(parts: seq<seq<byte>>): seq<byte> {
    if parts == [] then [] else parts[0] + Concat(parts[1..])
  }

  /** A signature that ends with the state's value type is taken for one that has been extended before. */
  predicate AlreadyModified(sig: seq<byte>, state: EncodedToken) {
    |sig| >= |ValueTypeLocal(state)| && sig[|sig| - |ValueTypeLocal(state)|..] == ValueTypeLocal(state)
  }

  /** A method without locals has no signature; otherwise there is a tag, a count, and the locals. */
  predicate SigReadable(sig: seq<byte>) {
    sig != [] ==> ReadNum(sig[1..]).Got? && ReadNum(sig[1..]).size < |sig|
  }

  function OldCount(sig: seq<byte>): nat
    requires SigReadable(sig)
  {
    if sig == [] then 0 else ReadNum(sig[1..]).value.value
  }

  /** The bytes of the locals. */
  function LocalBytes(sig: seq<byte>): seq<byte>
    requires SigReadable(sig)
  {
    if sig == [] then [] else sig[1 + ReadNum(sig[1..]).size..]
  }

  function NewCount(sig: seq<byte>, ret: Return): nat
    requires SigReadable(sig)
  {
    OldCount(sig) + if ret.Typed? then 4 else 3
  }

  /** The extended signature. */
  function Extended(sig: seq<byte>, ret: Return, exc: EncodedToken, state: EncodedToken): seq<byte>
    requires SigReadable(sig) && NewCount(sig, ret) < 0x2000_0000
  {
    [LOCAL_SIG] + NumBytes(Shortest(NewCount(sig, ret))) + LocalBytes(sig) + Concat(AddedLocals(ret, exc, state))
  }

  // ---- the operation

  datatype Indices = Indices(returnValue: int, exc: nat, callTargetReturn: nat, state: nat)

  const NO_INDEX: int := 0xFFFF_FFFF

  /** Outside: the source reads outside the signature, or writes outside its buffer, and goes on undefined. */
  datatype SigResult = Modified(sig: seq<byte>, indices: Indices) | Refused | ReadsOutside | WritesOutside

  datatype Comparison = Same | Different | Outside

  /** Where the comparison with the state's token starts: the difference of two unsigned sizes. */
  function ComparedAt(sig: seq<byte>, state: EncodedToken): nat {
    (|sig| - |TokenBytes(state)|) % TWO_32
  }

  /** The byte in front of it is looked at, unless the comparison starts at the front. */
  predicate ComparesInside(sig: seq<byte>, state: EncodedToken) {
    ComparedAt(sig, state) > 0 ==> ComparedAt(sig, state) - 1 < |sig|
  }

  /** The comparison stays inside the signature if and only if the signature is as long as the token. */
  lemma ComparesInsideIff(sig: seq<byte>, state: EncodedToken)
    requires |sig| < TWO_32
    ensures ComparesInside(sig, state) <==> |sig| >= |TokenBytes(state)|
  {
    hide TokenBytes;
  }

  /** One integer local and a token of four bytes: the difference wraps around and the first byte read is 4 GB away. */
  lemma ShortSignatureReadOutside()
    ensures var sig: seq<byte>, state: EncodedToken := [LOCAL_SIG, 1, 0x08], 0x4000;
            && SigReadable(sig) && |TokenBytes(state)| == 4
            && ComparedAt(sig, state) == TWO_32 - 1 && !ComparesInside(sig, state)
  {
  }

  /** Appends bytes to what the buffer holds up to `offset`. */
  method Write(buffer: array<byte>, offset: nat, bytes: seq<byte>) returns (next: nat)
    requires offset + |bytes| <= buffer.Length
    modifies buffer
    ensures next == offset + |bytes| && buffer[..next] == old(buffer[..offset]) + bytes
  {
    Put(buffer, offset, bytes);
    next := offset + |bytes|;
    assert buffer[..next] == buffer[..offset] + buffer[offset..next];
  }

  /** An element byte and a token. */
  method WriteTagged(buffer: array<byte>, offset: nat, tag: byte, t: EncodedToken) returns (next: nat)
    requires offset + 1 + |TokenBytes(t)| <= buffer.Length
    modifies buffer
    ensures next == offset + 1 + |TokenBytes(t)|
    ensures buffer[..next] == old(buffer[..offset]) + ([tag] + TokenBytes(t))
  {
    hide TokenBytes;
    next := Write(buffer, offset, [tag]);
    next := Write(buffer, next, TokenBytes(t));
  }

  /** The added locals, one after another. */
  method WriteAdded(buffer: array<byte>, offset: nat, ret: Return, exc: EncodedToken, state: EncodedToken)
    returns (next: nat)
    requires offset + |Concat(AddedLocals(ret, exc, state))| <= buffer.Length
    modifies buffer
    ensures next == offset + |Concat(AddedLocals(ret, exc, state))|
    ensures buffer[..next] == old(buffer[..offset]) + Concat(AddedLocals(ret, exc, state))
  {
    hide Concat, AddedLocals, TokenBytes;
    AddedBytes(ret, exc, state);
    if ret.Typed? {
      next := Write(buffer, offset, ret.signature);
      next := WriteTagged(buffer, next, ELEMENT_CLASS, exc);
      next := Write(buffer, next, ret.spec);
    } else {
      next := WriteTagged(buffer, offset, ELEMENT_CLASS, exc);
      next := WriteTagged(buffer, next, ELEMENT_VALUETYPE, ret.token);
    }
    next := WriteTagged(buffer, next, ELEMENT_VALUETYPE, state);
  }

  /** The bytes of the added locals, and the sizes the size computation adds up. */
  function AddedParts(ret: Return, exc: EncodedToken, state: EncodedToken): seq<byte> {
    (if ret.Typed? then ret.signature else []) + [ELEMENT_CLASS] + TokenBytes(exc)
    + (if ret.Typed? then ret.spec else [ELEMENT_VALUETYPE] + TokenBytes(ret.token))
    + [ELEMENT_VALUETYPE] + TokenBytes(state)
  }

  lemma AddedBytes(ret: Return, exc: EncodedToken, state: EncodedToken)
    ensures Concat(AddedLocals(ret, exc, state)) == AddedParts(ret, exc, state)
  {
    hide TokenBytes;
    var a, b, c := ClassLocal(exc), (if ret.Typed? then ret.spec else ValueTypeLocal(ret.token)),
      ValueTypeLocal(state);
    assert Concat([c]) == c + Concat([]) == c;
    assert [b, c][1..] == [c] && [a, b, c][1..] == [b, c];
    assert Concat([b, c]) == b + c;
    assert Concat([a, b, c]) == a + (b + c);
    if ret.Typed? {
      var all := [ret.signature, a, b, c];
      assert AddedLocals(ret, exc, state) == all && all[1..] == [a, b, c];
      assert ret.signature + (a + (b + c)) == AddedParts(ret, exc, state);
    } else {
      assert AddedLocals(ret, exc, state) == [a, b, c];
      assert a + (b + c) == AddedParts(ret, exc, state);
    }
  }

  /** The size of the new signature, as it is computed before anything is written. */
  function NewSize(sig: seq<byte>, ret: Return, exc: EncodedToken, state: EncodedToken): int
    requires SigReadable(sig) && NewCount(sig, ret) < 0x2000_0000
  {
    var size := |sig| + (if ret.Typed? then |ret.signature| else 0) + (1 + |TokenBytes(exc)|)
                + (if ret.Typed? then |ret.spec| else 1 + |TokenBytes(ret.token)|) + (1 + |TokenBytes(state)|);
    if sig == [] then size + 2
    else size + Shortest(NewCount(sig, ret)).width - ReadNum(sig[1..]).size
  }

  /** The size computed beforehand is the size written, also when the longer count takes more bytes. */
  lemma SizeExact(sig: seq<byte>, ret: Return, exc: EncodedToken, state: EncodedToken)
    requires SigReadable(sig) && NewCount(sig, ret) < 0x2000_0000
    ensures NewSize(sig, ret, exc, state) == |Extended(sig, ret, exc, state)|
  {
    hide TokenBytes, Concat, AddedLocals, ReadNum;
    AddedBytes(ret, exc, state);
  }

  /** What the memory comparison of the source finds: the tag byte in front of the state's token, and the token. */
  method EndsWithState(sig: seq<byte>, state: EncodedToken) returns (r: Comparison)
    requires |sig| < TWO_32
    ensures r.Outside? <==> |sig| < |TokenBytes(state)|
    ensures r.Same? <==> AlreadyModified(sig, state)
  {
    hide TokenBytes;
    var len := |TokenBytes(state)|;
    var at := (|sig| - len) % TWO_32;
    r := Different;
    if at > 0 {
      if at - 1 >= |sig| {
        return Outside;
      }
      if sig[at - 1] == ELEMENT_VALUETYPE && sig[at..] == TokenBytes(state) {
        r := Same;
      }
      assert sig[at - 1..] == [sig[at - 1]] + sig[at..];
    }
  }

  /**
   Extends a local signature. The source compares the end of the signature without checking that it is at least
   as long as the compressed token, and fills a buffer of fixed size without checking that the result, or a count
   too large to be compressed, fits.
   */
  method ModifyLocalSig(sig: seq<byte>, ret: Return, exc: EncodedToken, state: EncodedToken) returns (r: SigResult)
    requires SigReadable(sig) && |sig| < TWO_32
    ensures r.ReadsOutside? <==> sig != [] && |sig| < |TokenBytes(state)|
    ensures r.Refused? <==> sig != [] && AlreadyModified(sig, state)
    ensures r.WritesOutside? <==>
              && (sig != [] ==> |sig| >= |TokenBytes(state)| && !AlreadyModified(sig, state))
              && (NewCount(sig, ret) < 0x2000_0000 ==> |Extended(sig, ret, exc, state)| > 500)
    ensures r.Modified? ==> NewCount(sig, ret) < 0x2000_0000 && r.sig == Extended(sig, ret, exc, state)
    ensures r.Modified? ==>
              var n := NewCount(sig, ret);
              && r.indices.state == n - 1 && r.indices.callTargetReturn == n - 2 && r.indices.exc == n - 3
              && r.indices.returnValue == if ret.Typed? then n - 4 else 0xFFFF_FFFF
  {
    hide TokenBytes, Concat, AddedLocals, ReadNum, NumBytes, AlreadyModified, NewSize, OldCount;
    if sig != [] {
      var again := EndsWithState(sig, state);
      match again {
        case Outside => return ReadsOutside;
        case Same => return Refused;
        case Different =>
      }
    }
    var count := NewCount(sig, ret);
    if count >= 0x2000_0000 {
      return WritesOutside;
    }
    SizeExact(sig, ret, exc, state);
    var newSize := NewSize(sig, ret, exc, state);
    if newSize > BUFFER_SIZE {
      return WritesOutside;
    }
    var buffer := new byte[BUFFER_SIZE];
    var offset := Write(buffer, 0, [LOCAL_SIG]);
    offset := Write(buffer, offset, NumBytes(Shortest(count)));
    if sig != [] {
      offset := Write(buffer, offset, sig[1 + ReadNum(sig[1..]).size..]);
    }
    assert buffer[..offset] == [LOCAL_SIG] + NumBytes(Shortest(count)) + LocalBytes(sig);
    offset := WriteAdded(buffer, offset, ret, exc, state);
    r := Modified(buffer[..newSize],
                  Indices(if ret.Typed? then count - 4 else NO_INDEX, count - 3, count - 2, count - 1));
  }

  /** One integer local, extended for a method that returns a string, and no locals, for one that returns nothing. */
  lemma ExtensionsSpelled()
    ensures SigReadable([0x07, 0x01, 0x08]) && SigReadable([])
    ensures Extended([0x07, 0x01, 0x08], Typed([0x0E], [0x15, 0x11, 0x05, 0x01, 0x0E]), 0x09, 0x0D)
            == [0x07, 0x05, 0x08, 0x0E, 0x12, 0x09, 0x15, 0x11, 0x05, 0x01, 0x0E, 0x11, 0x0D]
    ensures Extended([], Void(0x05), 0x09, 0x0D) == [0x07, 0x03, 0x12, 0x09, 0x11, 0x05, 0x11, 0x0D]
  {
    var sig: seq<byte> := [0x07, 0x01, 0x08];
    assert sig[1..] == [0x01, 0x08];
    AddedBytes(Typed([0x0E], [0x15, 0x11, 0x05, 0x01, 0x0E]), 0x09, 0x0D);
    AddedBytes(Void(0x05), 0x09, 0x0D);
    hide Concat, AddedLocals;
    assert TokenBytes(0x09) == [0x09] && TokenBytes(0x0D) == [0x0D] && TokenBytes(0x05) == [0x05];
    assert LocalBytes(sig) == [0x08] && NumBytes(Shortest(5)) == [0x05] && NumBytes(Shortest(3)) == [0x03];
  }

  // ---- what the new signature means

  /** What is read is a non-empty prefix, which reads the same on its own. */
  predicate ReadsPrefix(read: seq<byte> -> Parsed<seq<byte>>, data: seq<byte>) {
    var r := read(data);
    r.Got? ==> 1 <= r.size <= |data| && r.value == data[..r.size] && read(r.value) == r
  }

  /** A local reads the same whatever follows. */
  predicate IgnoresRest(read: seq<byte> -> Parsed<seq<byte>>, local: seq<byte>, rest: seq<byte>) {
    read(local) == Got(local, |local|) ==> read(local + rest) == Got(local, |local|)
  }

  /** A way of reading locals that looks at nothing but the local itself: any grammar of locals. */
  ghost predicate Reader(read: seq<byte> -> Parsed<seq<byte>>) {
    && (forall data :: ReadsPrefix(read, data))
    && (forall local, rest :: IgnoresRest(read, local, rest))
  }

  /** `count` locals, one after another, that take up all of the bytes. */
  function ReadLocals(read: seq<byte> -> Parsed<seq<byte>>, data: seq<byte>, count: nat): Parsed<seq<seq<byte>>>
    decreases count
  {
    if count == 0 then (if data == [] then Got([], 0) else Bad)
    else
      match read(data)
      case Bad => Bad
      case Got(local, n) =>
        if n > |data| then Bad
        else
          match ReadLocals(read, data[n..], count - 1)
          case Bad => Bad
          case Got(locals, k) => Got([local] + locals, n + k)
  }

  /** The locals of a signature. */
  function DecodeLocals(read: seq<byte> -> Parsed<seq<byte>>, sig: seq<byte>): Parsed<seq<seq<byte>>>
    requires SigReadable(sig)
  {
    ReadLocals(read, LocalBytes(sig), OldCount(sig))
  }

  predicate AllRead(read: seq<byte> -> Parsed<seq<byte>>, locals: seq<seq<byte>>) {
    forall i :: 0 <= i < |locals| ==> read(locals[i]) == Got(locals[i], |locals[i]|)
  }

  lemma {:induction false} ReadConcat(read: seq<byte> -> Parsed<seq<byte>>, locals: seq<seq<byte>>)
    requires Reader(read) && AllRead(read, locals)
    ensures ReadLocals(read, Concat(locals), |locals|) == Got(locals, |Concat(locals)|)
  {
    if locals != [] {
      var rest := Concat(locals[1..]);
      assert read(locals[0]) == Got(locals[0], |locals[0]|);
      assert IgnoresRest(read, locals[0], rest);
      assert (locals[0] + rest)[|locals[0]|..] == rest;
      ReadConcat(read, locals[1..]);
      assert [locals[0]] + locals[1..] == locals;
    }
  }

  /** Locals that have been read are exactly the bytes they were read from. */
  lemma {:induction false} ReadLocalsSound(read: seq<byte> -> Parsed<seq<byte>>, data: seq<byte>, count: nat)
    requires Reader(read) && ReadLocals(read, data, count).Got?
    ensures var locals := ReadLocals(read, data, count).value;
            |locals| == count && AllRead(read, locals) && Concat(locals) == data
    decreases count
  {
    if count > 0 {
      var r := read(data);
      assert ReadsPrefix(read, data);
      var rest := ReadLocals(read, data[r.size..], count - 1).value;
      ReadLocalsSound(read, data[r.size..], count - 1);
      assert ([r.value] + rest)[1..] == rest;
      assert data == r.value + data[r.size..];
      forall i | 0 <= i < count ensures var l := ([r.value] + rest)[i]; read(l) == Got(l, |l|) {
        if i > 0 {
          assert ([r.value] + rest)[i] == rest[i - 1];
        }
      }
    }
  }

  lemma {:induction false} ConcatAppend(a: seq<seq<byte>>, b: seq<seq<byte>>)
    ensures Concat(a + b) == Concat(a) + Concat(b)
  {
    if a == [] {
      assert [] + b == b;
    } else {
      ConcatAppend(a[1..], b);
      assert (a + b)[1..] == a[1..] + b;
    }
  }

  /** The count and the locals of the extended signature. */
  lemma ExtendedParts(sig: seq<byte>, ret: Return, exc: EncodedToken, state: EncodedToken)
    requires SigReadable(sig) && NewCount(sig, ret) < 0x2000_0000
    ensures var e := Extended(sig, ret, exc, state);
            && SigReadable(e) && OldCount(e) == NewCount(sig, ret)
            && LocalBytes(e) == LocalBytes(sig) + Concat(AddedLocals(ret, exc, state))
  {
    hide ReadNum, NumBytes, Concat, AddedLocals, LocalBytes, OldCount;
    var e, n := Extended(sig, ret, exc, state), Shortest(NewCount(sig, ret));
    var tail := LocalBytes(sig) + Concat(AddedLocals(ret, exc, state));
    assert e[1..] == NumBytes(n) + tail;
    ReadNumComplete(n, e[1..]);
    assert e[1 + n.width..] == tail;
    AddedBytes(ret, exc, state);
    PartsOf(e);
  }

  lemma PartsOf(sig: seq<byte>)
    requires sig != [] && ReadNum(sig[1..]).Got? && ReadNum(sig[1..]).size < |sig|
    ensures SigReadable(sig) && OldCount(sig) == ReadNum(sig[1..]).value.value
    ensures LocalBytes(sig) == sig[1 + ReadNum(sig[1..]).size..]
  {
  }

  /**
   The extension is exact: under any grammar of locals that reads the old signature and the added locals, the new
   signature reads as the old locals followed by the return type (if any), Exception, CallTargetReturn and
   CallTargetState; the returned indices name these.
   */
  lemma ExtensionExact(read: seq<byte> -> Parsed<seq<byte>>, sig: seq<byte>, ret: Return, exc: EncodedToken,
                       state: EncodedToken)
    requires SigReadable(sig) && NewCount(sig, ret) < 0x2000_0000 && Reader(read)
    requires DecodeLocals(read, sig).Got? && AllRead(read, AddedLocals(ret, exc, state))
    ensures SigReadable(Extended(sig, ret, exc, state))
    ensures var before := DecodeLocals(read, sig).value;
            var now := DecodeLocals(read, Extended(sig, ret, exc, state));
            && now.Got? && now.value == before + AddedLocals(ret, exc, state)
            && |now.value| == NewCount(sig, ret)
            && now.value[|now.value| - 1] == ValueTypeLocal(state)
            && now.value[|now.value| - 3] == ClassLocal(exc)
            && (ret.Typed? ==> now.value[|now.value| - 4] == ret.signature && now.value[|now.value| - 2] == ret.spec)
  {
    hide ReadNum, Concat, LocalBytes, OldCount, Extended, ClassLocal, ValueTypeLocal;
    var before, added := DecodeLocals(read, sig).value, AddedLocals(ret, exc, state);
    ReadLocalsSound(read, LocalBytes(sig), OldCount(sig));
    ExtendedParts(sig, ret, exc, state);
    ConcatAppend(before, added);
    hide Reader;
    forall i | 0 <= i < |before + added| ensures read((before + added)[i]) == Got((before + added)[i],
      |(before + added)[i]|) {
      if i >= |before| {
        assert (before + added)[i] == added[i - |before|];
      }
    }
    ReadConcat(read, before + added);
    assert NewCount(sig, ret) == |before + added|;
  }

  /** Run on its own output, the extension is refused. */
  lemma OwnOutputRefused(sig: seq<byte>, ret: Return, exc: EncodedToken, state: EncodedToken)
    requires SigReadable(sig) && NewCount(sig, ret) < 0x2000_0000
    ensures AlreadyModified(Extended(sig, ret, exc, state), state)
  {
    hide TokenBytes, LocalBytes, OldCount, Concat, AddedLocals;
    AddedBytes(ret, exc, state);
    var e, v := Extended(sig, ret, exc, state), ValueTypeLocal(state);
    var parts := AddedParts(ret, exc, state);
    assert parts[|parts| - |v|..] == v;
    assert e[|e| - |parts|..] == parts;
    assert e[|e| - |v|..] == parts[|parts| - |v|..];
  }

  /** The bytes of the type a byte string starts with. */
  function ReadTypeBytes(data: seq<byte>): Parsed<seq<byte>> {
    match ReadType(data)
    case Bad => Bad
    case Got(_, n) => Got(data[..n], n)
  }

  /** The type grammar of the signature parser is a grammar of locals, and reads the locals the rewriting adds. */
  lemma TypesAreLocals(ret: Return, exc: EncodedToken, state: EncodedToken)
    requires ret.Typed? ==> ReadTypeBytes(ret.signature) == Got(ret.signature, |ret.signature|)
                            && ReadTypeBytes(ret.spec) == Got(ret.spec, |ret.spec|)
    ensures Reader(ReadTypeBytes) && AllRead(ReadTypeBytes, AddedLocals(ret, exc, state))
  {
    hide ReadType, Encode, ReadsPrefix, IgnoresRest, ReadTypeBytes, TokenBytes;
    forall data ensures ReadsPrefix(ReadTypeBytes, data) {
      TypeReadsPrefix(data);
    }
    forall local, rest ensures IgnoresRest(ReadTypeBytes, local, rest) {
      TypeIgnoresRest(local, rest);
    }
    NamedLocal(true, state);
    NamedLocal(false, exc);
    if ret.Void? {
      NamedLocal(true, ret.token);
    }
  }

  lemma TypeReadsPrefix(data: seq<byte>)
    ensures ReadsPrefix(ReadTypeBytes, data)
  {
    hide ReadType, Encode;
    if ReadType(data).Got? {
      TypePrefix(data, []);
      var n := ReadType(data).size;
      assert data[..n] + [] == data[..n];
    }
  }

  lemma TypeIgnoresRest(local: seq<byte>, rest: seq<byte>)
    ensures IgnoresRest(ReadTypeBytes, local, rest)
  {
    hide ReadType, Encode;
    if ReadType(local).Got? {
      TypePrefix(local, rest);
    }
  }

  lemma TypePrefix(data: seq<byte>, rest: seq<byte>)
    requires ReadType(data).Got?
    ensures var n := ReadType(data).size;
            && ReadTypeBytes(data[..n] + rest) == Got(data[..n], n)
  {
    hide ReadType, Encode;
    ReadTypeSound(data);
    var t, n := ReadType(data).value, ReadType(data).size;
    ReadTypeComplete(t, rest);
    assert data[..n] == Encode(t);
    assert (Encode(t) + rest)[..n] == Encode(t);
  }

  lemma NamedLocal(isValue: bool, t: EncodedToken)
    ensures var l := [NamedByte(isValue)] + TokenBytes(t); ReadTypeBytes(l) == Got(l, |l|)
  {
    hide ReadType, NumBytes;
    var named := Named(isValue, Shortest(t));
    ReadTypeComplete(named, []);
    var l := [NamedByte(isValue)] + TokenBytes(t);
    assert Encode(named) + [] == l && l[..|l|] == l;
  }
}
