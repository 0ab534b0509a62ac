/**
 The format the importer reads (method bodies of section III.1.2 of ECMA-335) as functions on byte strings,
 and the two round trips between byte strings and instruction lists.
 */
module ILFormat {
  import opened Bytes
  import opened OpCodes
  import opened ILCode
  import opened Relaxation

  datatype Option<+T> = None | Some(value: T)

  /** Code sizes for which offsets and displacements do not wrap around in 32 bits. */
  const MAX_SIZE: nat := 0x8000_0000

  datatype Read<+T> = Bad | Read(value: T, next: nat)

  /** The opcode at `at`: 0xFE leads a two-byte opcode, the other prefix bytes are refused. */
  function ReadOpcode(bytes: seq<byte>, at: nat): (r: Read<nat>)
    requires at < |bytes|
    ensures r.Read? ==> Importable(r.value) && r.next == at + LeadSize(r.value) <= |bytes|
                        && bytes[at..r.next] == LeadBytes(r.value)
  {
    if bytes[at] == PREFIX1 then
      if at + 1 >= |bytes| then Bad
      else
        var op: nat := bytes[at + 1] as nat + 0x100;
        if op >= COUNT then Bad
        else
          assert bytes[at..at + 2] == [PREFIX1, op - 0x100];
          Read(op, at + 2)
    else if PREFIX7 <= bytes[at] <= PREFIX2 then Bad
    else
      assert bytes[at..at + 1] == [bytes[at]];
      Read(bytes[at], at + 1)
  }

  /** The n-byte field at `at`. */
  function Field(bytes: seq<byte>, at: nat, n: nat): (w: nat)
    requires at + n <= |bytes|
    ensures w < Pow256(n)
  {
    FromLe(bytes[at..at + n])
  }

  /** The node of the switch argument at `at`, whose displacement counts from `base`. */
  function SwitchArgAt(bytes: seq<byte>, at: nat, base: nat): (i: Instr)
    requires at + 4 <= |bytes|
    ensures i.opcode == SWITCH_ARG && i.operand.Bits?
  {
    Instr(SWITCH_ARG, Bits((base + Field(bytes, at, 4)) % TWO_32))
  }

  /** The `count` switch arguments at `at`, each holding the offset it targets. */
  function ReadSwitchArgs(bytes: seq<byte>, at: nat, base: nat, count: nat): (r: Read<Code>)
    requires at <= |bytes|
    ensures r.Read? ==> |r.value| == count && r.next == at + 4 * count <= |bytes|
    decreases count
  {
    if count == 0 then Read([], at)
    else if at + 4 > |bytes| then Bad
    else
      var rest := ReadSwitchArgs(bytes, at + 4, base, count - 1);
      if rest.Bad? then Bad
      else Read([SwitchArgAt(bytes, at, base)] + rest.value, rest.next)
  }

  /**
   The node or nodes one instruction becomes: branches hold the offset they target until the whole body has
   been read, and a switch is followed by one node per argument.
   */
  function ReadInstr(bytes: seq<byte>, at: nat): (r: Read<Code>)
    requires at < |bytes|
    ensures r.Read? ==> |r.value| > 0 && at < r.next <= |bytes| && ReadOpcode(bytes, at).Read?
  {
    var op := ReadOpcode(bytes, at);
    if op.Bad? then Bad
    else
      match FlagsOf(op.value)
      case Plain(size) =>
        if op.next + size > |bytes| then Bad
        else Read([Instr(op.value, Bits(Field(bytes, op.next, size)))], op.next + size)
      case ShortBranch =>
        if op.next + 1 > |bytes| then Bad
        else Read([Instr(op.value, Bits((op.next + 1 + Signed8(bytes[op.next])) % TWO_32))], op.next + 1)
      case LongBranch =>
        if op.next + 4 > |bytes| then Bad
        else Read([Instr(op.value, Bits((op.next + 4 + Field(bytes, op.next, 4)) % TWO_32))], op.next + 4)
      case SwitchTable => ReadSwitch(bytes, op.next)
  }

  /** A switch whose argument count is at `at`. */
  function ReadSwitch(bytes: seq<byte>, at: nat): (r: Read<Code>)
    requires at <= |bytes|
    ensures r.Read? ==> |r.value| > 0 && at < r.next <= |bytes|
  {
    if at + 4 > |bytes| then Bad
    else
      var count := Field(bytes, at, 4);
      var args := ReadSwitchArgs(bytes, at + 4, (at + 4 + 4 * count) % TWO_32, count);
      if args.Bad? then Bad else Read([Instr(SWITCH, Bits(count))] + args.value, args.next)
  }

  /** All nodes from `at` on. */
  function ReadBody(bytes: seq<byte>, at: nat): (r: Option<Code>)
    requires at <= |bytes|
    decreases |bytes| - at
  {
    if at == |bytes| then Some([])
    else
      var first := ReadInstr(bytes, at);
      if first.Bad? then None
      else
        var rest := ReadBody(bytes, first.next);
        if rest.None? then None else Some(first.value + rest.value)
  }

  /** Position t is what the offset table holds at `off`: an instruction that starts there, or the end. */
  predicate StartsAt(code: Code, off: nat, t: nat)
    requires OpcodesOk(code)
  {
    t <= |code| && Offset(code, t) == off && (t < |code| ==> code[t].opcode != SWITCH_ARG)
  }

  /** `code` is `raw` with every branch offset replaced by the position of the node that starts there. */
  ghost predicate Resolves(raw: Code, code: Code) {
    && |raw| == |code|
    && OpcodesOk(raw)
    && forall k :: 0 <= k < |raw| ==> ResolvesAt(raw, code, k)
  }

  ghost predicate ResolvesAt(raw: Code, code: Code, k: nat)
    requires |raw| == |code| && k < |raw| && OpcodesOk(raw)
  {
    && code[k].opcode == raw[k].opcode
    && if IsBranch(raw[k].opcode) then
         raw[k].operand.Bits? && code[k].operand.Target? && StartsAt(raw, raw[k].operand.w, code[k].operand.to)
       else code[k].operand == raw[k].operand
  }

  /** A branch whose offset starts no instruction cannot be resolved. */
  lemma Unresolvable(raw: Code, k: nat)
    requires RawOk(raw) && k < |raw| && IsBranch(raw[k].opcode)
    requires forall t: nat :: !StartsAt(raw, raw[k].operand.w, t)
    ensures forall code :: !Resolves(raw, code)
  {
    forall code ensures !Resolves(raw, code) {
      assert Resolves(raw, code) ==> ResolvesAt(raw, code, k);
    }
  }

  /** What a successful import of `bytes` yields. */
  ghost predicate Imports(bytes: seq<byte>, code: Code) {
    ReadBody(bytes, 0).Some? && Resolves(ReadBody(bytes, 0).value, code)
  }

  /** What has been read, followed by what remains to be read. */
  function Prepend(done: Code, rest: Read<Code>): Read<Code> {
    if rest.Bad? then Bad else Read(done + rest.value, rest.next)
  }

  lemma PrependStep(done: Code, instr: Instr, rest: Read<Code>)
    ensures Prepend(done, Prepend([instr], rest)) == Prepend(done + [instr], rest)
    ensures Prepend([], rest) == rest
  {
    if rest.Read? {
      assert done + ([instr] + rest.value) == (done + [instr]) + rest.value;
      assert [] + rest.value == rest.value;
    }
  }

  function PrependBody(done: Code, rest: Option<Code>): Option<Code> {
    if rest.None? then None else Some(done + rest.value)
  }

  lemma PrependNothing(rest: Option<Code>)
    ensures PrependBody([], rest) == rest
  {
    if rest.Some? {
      assert [] + rest.value == rest.value;
    }
  }

  lemma PrependBodyStep(done: Code, bytes: seq<byte>, at: nat)
    requires at < |bytes|
    ensures ReadInstr(bytes, at).Bad? ==> ReadBody(bytes, at).None?
    ensures ReadInstr(bytes, at).Read? ==>
              PrependBody(done, ReadBody(bytes, at))
              == PrependBody(done + ReadInstr(bytes, at).value, ReadBody(bytes, ReadInstr(bytes, at).next))
  {
    hide ReadInstr;
    var first := ReadInstr(bytes, at);
    if first.Read? && ReadBody(bytes, first.next).Some? {
      var rest := ReadBody(bytes, first.next).value;
      assert done + (first.value + rest) == (done + first.value) + rest;
    }
  }

  // ---- shape of what is read

  predicate RawOk(raw: Code) {
    && OpcodesOk(raw)
    && forall k :: 0 <= k < |raw| ==>
         && (Importable(raw[k].opcode) || raw[k].opcode == SWITCH_ARG)
         && raw[k].operand.Bits?
         && (!IsBranch(raw[k].opcode) ==> raw[k].operand.w < Pow256(OperandSize(raw[k].opcode)))
  }

  /** The nodes after position s, up to `end`, are the arguments read from `args` on. */
  ghost predicate ArgsRead(bytes: seq<byte>, args: nat, base: nat, nodes: Code, s: nat, end: nat)
    requires s < end <= |nodes| && args + 4 * (end - s - 1) <= |bytes|
  {
    forall i :: s < i < end ==> nodes[i] == SwitchArgAt(bytes, args + 4 * (i - s - 1), base)
  }

  lemma {:induction false} SwitchArgsRead(bytes: seq<byte>, at: nat, base: nat, count: nat, head: Instr)
    requires at <= |bytes| && ReadSwitchArgs(bytes, at, base, count).Read?
    ensures ArgsRead(bytes, at, base, [head] + ReadSwitchArgs(bytes, at, base, count).value, 0, count + 1)
    decreases count
  {
    hide SwitchArgAt;
    if count > 0 {
      var rest := ReadSwitchArgs(bytes, at + 4, base, count - 1).value;
      SwitchArgsRead(bytes, at + 4, base, count - 1, head);
      var nodes := [head] + ReadSwitchArgs(bytes, at, base, count).value;
      forall i | 0 < i < count + 1 ensures nodes[i] == SwitchArgAt(bytes, at + 4 * (i - 1), base) {
        if i > 1 {
          assert nodes[i] == ([head] + rest)[i - 1];
        }
      }
    }
  }

  lemma ReadInstrRaw(bytes: seq<byte>, at: nat)
    requires at < |bytes| && ReadInstr(bytes, at).Read?
    ensures RawOk(ReadInstr(bytes, at).value)
  {
    var op := ReadOpcode(bytes, at);
    if FlagsOf(op.value).SwitchTable? {
      var count := Field(bytes, op.next, 4);
      SwitchArgsRead(bytes, op.next + 4, (op.next + 4 + 4 * count) % TWO_32, count, Instr(SWITCH, Bits(count)));
    }
  }

  lemma {:induction false} ReadBodyRaw(bytes: seq<byte>, at: nat)
    requires at <= |bytes| && ReadBody(bytes, at).Some?
    ensures RawOk(ReadBody(bytes, at).value)
    decreases |bytes| - at
  {
    if at < |bytes| {
      ReadInstrRaw(bytes, at);
      ReadBodyRaw(bytes, ReadInstr(bytes, at).next);
    }
  }

  lemma ImportsExportable(bytes: seq<byte>, code: Code)
    requires Imports(bytes, code)
    ensures Exportable(code)
  {
    var raw := ReadBody(bytes, 0).value;
    ReadBodyRaw(bytes, 0);
    forall k | 0 <= k < |code| ensures code[k].opcode < TABLE_SIZE {
      assert ResolvesAt(raw, code, k);
    }
    forall k | 0 <= k < |code| ensures OperandOk(code, k) {
      assert ResolvesAt(raw, code, k);
    }
  }

  // ---- import then export: byte-exact

  lemma {:induction false} OffsetOfConcat(a: Code, b: Code, k: nat)
    requires OpcodesOk(a) && OpcodesOk(b) && k <= |b|
    ensures OpcodesOk(a + b) && Offset(a + b, |a| + k) == CodeSize(a) + Offset(b, k)
  {
    if k > 0 {
      OffsetOfConcat(a, b, k - 1);
    } else {
      OffsetOfPrefix(a + b, a, |a|);
    }
  }

  lemma {:induction false} SizeOfArgs(args: Code, k: nat)
    requires OpcodesOk(args) && k <= |args| && forall j :: 0 <= j < k ==> args[j].opcode == SWITCH_ARG
    ensures Offset(args, k) == 4 * k
  {
    if k > 0 {
      SizeOfArgs(args, k - 1);
    }
  }

  lemma ReadInstrSize(bytes: seq<byte>, at: nat)
    requires at < |bytes| && ReadInstr(bytes, at).Read?
    ensures OpcodesOk(ReadInstr(bytes, at).value)
    ensures CodeSize(ReadInstr(bytes, at).value) == ReadInstr(bytes, at).next - at
  {
    var op := ReadOpcode(bytes, at);
    var group := ReadInstr(bytes, at).value;
    ReadInstrRaw(bytes, at);
    assert Offset(group, 1) == SizeOf(op.value);
    if FlagsOf(op.value).SwitchTable? {
      var count := Field(bytes, op.next, 4);
      SwitchArgsRead(bytes, op.next + 4, (op.next + 4 + 4 * count) % TWO_32, count, group[0]);
      var args := group[1..];
      assert forall j :: 0 <= j < count ==> args[j].opcode == SWITCH_ARG;
      SizeOfArgs(args, count);
      assert group == group[..1] + args;
      OffsetOfConcat(group[..1], args, count);
      assert Offset(group[..1], 1) == SizeOf(op.value);
    }
  }

  lemma {:induction false} ReadBodySize(bytes: seq<byte>, at: nat)
    requires at <= |bytes| && ReadBody(bytes, at).Some?
    ensures OpcodesOk(ReadBody(bytes, at).value) && CodeSize(ReadBody(bytes, at).value) == |bytes| - at
    decreases |bytes| - at
  {
    hide ReadInstr, SizeOf;
    if at < |bytes| {
      var first := ReadInstr(bytes, at);
      ReadInstrSize(bytes, at);
      ReadBodySize(bytes, first.next);
      var rest := ReadBody(bytes, first.next).value;
      OffsetOfConcat(first.value, rest, |rest|);
    }
  }

  lemma SplitSlice(bytes: seq<byte>, a: nat, b: nat, c: nat)
    requires a <= b <= c <= |bytes|
    ensures bytes[a..c] == bytes[a..b] + bytes[b..c]
  {
  }

  /** Switch arguments count from the end of their switch. */
  lemma {:induction false} SwitchBaseOfArgs(code: Code, s: nat, j: nat)
    requires Exportable(code) && s < |code| && code[s].opcode == SWITCH && s + 1 <= j <= |code|
    requires forall i :: s < i < j ==> code[i].opcode == SWITCH_ARG
    ensures OperandOk(code, s) && SwitchBase(code, j) == Offset(code, s + 1) + 4 * code[s].operand.w
  {
    assert OperandOk(code, s);
    assert Offset(code, s + 1) == Offset(code, s) + 5;
    if j > s + 1 {
      SwitchBaseOfArgs(code, s, j - 1);
    }
  }

  /** What the re-encoding proof carries: the list imported from `bytes`, before and after resolving. */
  ghost predicate Imported(bytes: seq<byte>, raw: Code, code: Code) {
    && |bytes| < MAX_SIZE
    && Exportable(code)
    && Resolves(raw, code)
    && CodeSize(raw) == |bytes|
  }

  /** A resolved branch lies at the offset its operand held, and that offset is inside the body. */
  lemma TargetOffset(bytes: seq<byte>, raw: Code, code: Code, k: nat)
    requires Imported(bytes, raw, code) && k < |raw| && IsBranch(raw[k].opcode)
    ensures raw[k].operand.Bits? && code[k].operand.Target? && code[k].opcode == raw[k].opcode
    ensures OperandOk(code, k) && Offset(code, code[k].operand.to) == raw[k].operand.w <= |bytes|
  {
    assert ResolvesAt(raw, code, k) && OperandOk(code, k);
    var t := code[k].operand.to;
    forall i | 0 <= i < |raw| ensures raw[i].opcode == code[i].opcode {
      assert ResolvesAt(raw, code, i);
    }
    OffsetOfPrefix(raw, code, t);
    OffsetGap(raw, t, |raw|);
  }

  /** Lead and operand bytes side by side are the instruction's encoding. */
  lemma SliceFromParts(code: Code, bytes: seq<byte>, k: nat, mid: nat, next: nat)
    requires Exportable(code) && k < |code|
    requires Offset(code, k) <= mid <= next <= |bytes|
    requires bytes[Offset(code, k)..mid] == LeadBytes(code[k].opcode)
    requires bytes[mid..next] == OperandBytes(code, k)
    ensures Offset(code, k + 1) == next && SliceIs(code, bytes, k)
  {
    hide LeadBytes, OperandBytes, LeadSize, OperandSize;
    SplitSlice(bytes, Offset(code, k), mid, next);
  }

  lemma PlainOperand(code: Code, k: nat, field: seq<byte>)
    requires Exportable(code) && k < |code|
    requires FlagsOf(code[k].opcode).Plain? || FlagsOf(code[k].opcode).SwitchTable?
    requires |field| == OperandSize(code[k].opcode)
    requires code[k].operand == Bits(FromLe(field))
    ensures OperandBytes(code, k) == field && !OutOfRange(code, k)
  {
    LeOfFromLe(field);
  }

  lemma ShortOperand(code: Code, k: nat, b: byte)
    requires Exportable(code) && k < |code| && FlagsOf(code[k].opcode).ShortBranch?
    requires Displacement(code, k) == Signed8(b)
    ensures OperandBytes(code, k) == [b] && !OutOfRange(code, k)
  {
    assert Le(b, 1) == [b] + Le(0, 0);
  }

  lemma LongOperand(code: Code, k: nat, field: seq<byte>)
    requires Exportable(code) && k < |code| && FlagsOf(code[k].opcode).LongBranch?
    requires |field| == 4 && Displacement(code, k) % TWO_32 == FromLe(field)
    ensures OperandBytes(code, k) == field && !OutOfRange(code, k)
  {
    LeOfFromLe(field);
  }

  /** Counting a field from a base and taking the base away again, both in 32 bits. */
  lemma WrapsBack(base: nat, f: nat, w: nat)
    requires base < MAX_SIZE && f < TWO_32 && w == (base + f) % TWO_32
    ensures (w - base) % TWO_32 == f
  {
  }

  lemma WrapsBackShort(base: nat, b: byte, w: nat)
    requires 0 < base < MAX_SIZE && w == (base + Signed8(b)) % TWO_32 && w < MAX_SIZE
    ensures w - base == Signed8(b)
  {
  }

  lemma ReencodePlain(bytes: seq<byte>, raw: Code, code: Code, at: nat, k: nat)
    requires Imported(bytes, raw, code) && k < |raw| && Offset(code, k) == at < |bytes|
    requires ReadInstr(bytes, at).Read? && raw[k] == ReadInstr(bytes, at).value[0]
    requires !FlagsOf(ReadOpcode(bytes, at).value).SwitchTable?
    ensures |ReadInstr(bytes, at).value| == 1 && code[k].opcode == ReadOpcode(bytes, at).value
    ensures Offset(code, k + 1) == ReadInstr(bytes, at).next && SliceIs(code, bytes, k) && !OutOfRange(code, k)
  {
    hide ReadOpcode, SliceIs, OperandBytes, OutOfRange, Displacement, FromLe, Pow256, Offset, FlagsOf, LeadSize;
    var op := ReadOpcode(bytes, at);
    var next := ReadInstr(bytes, at).next;
    assert ResolvesAt(raw, code, k) && OperandOk(code, k);
    var field := bytes[op.next..next];
    match FlagsOf(op.value) {
      case Plain(size) =>
        PlainOperand(code, k, field);
      case ShortBranch =>
        TargetOffset(bytes, raw, code, k);
        WrapsBackShort(next, bytes[op.next], raw[k].operand.w);
        DisplacementFrom(code, k, next);
        ShortOperand(code, k, bytes[op.next]);
        assert field == [bytes[op.next]];
      case LongBranch =>
        TargetOffset(bytes, raw, code, k);
        Pow256Values();
        WrapsBack(next, Field(bytes, op.next, 4), raw[k].operand.w);
        DisplacementFrom(code, k, next);
        LongOperand(code, k, field);
    }
    SliceFromParts(code, bytes, k, op.next, next);
  }

  lemma DisplacementFrom(code: Code, k: nat, next: nat)
    requires Exportable(code) && k < |code| && IsBranch(code[k].opcode) && code[k].opcode != SWITCH_ARG
    requires next == Offset(code, k) + SizeOf(code[k].opcode)
    ensures OperandOk(code, k) && Displacement(code, k) == Offset(code, code[k].operand.to) - next
  {
    assert OperandOk(code, k);
  }

  lemma ReencodeSwitch(bytes: seq<byte>, raw: Code, code: Code, at: nat, k: nat)
    requires Imported(bytes, raw, code) && k < |raw| && Offset(code, k) == at < |bytes|
    requires ReadInstr(bytes, at).Read? && raw[k] == ReadInstr(bytes, at).value[0]
    requires FlagsOf(ReadOpcode(bytes, at).value).SwitchTable?
    ensures code[k].opcode == SWITCH && code[k].operand.Bits?
    ensures Offset(code, k + 1) == ReadOpcode(bytes, at).next + 4
    ensures SliceIs(code, bytes, k) && !OutOfRange(code, k)
  {
    var op := ReadOpcode(bytes, at);
    assert ResolvesAt(raw, code, k) && OperandOk(code, k);
    SplitSlice(bytes, at, op.next, op.next + 4);
    LeOfFromLe(bytes[op.next..op.next + 4]);
  }

  /** An argument, at position k, of the switch at position s. */
  lemma ReencodeArg(bytes: seq<byte>, raw: Code, code: Code, s: nat, k: nat)
    requires Imported(bytes, raw, code) && s < k < |raw|
    requires code[s].opcode == SWITCH && code[s].operand.Bits?
    requires forall i :: s < i <= k ==> code[i].opcode == SWITCH_ARG
    requires Offset(code, k) == Offset(code, s + 1) + 4 * (k - s - 1)
    requires Offset(code, k) + 4 <= Offset(code, s + 1) + 4 * code[s].operand.w <= |bytes|
    requires raw[k] == SwitchArgAt(bytes, Offset(code, k), Offset(code, s + 1) + 4 * code[s].operand.w)
    ensures SliceIs(code, bytes, k) && !OutOfRange(code, k)
  {
    hide OperandBytes, OutOfRange, FromLe, Pow256, Offset;
    var at := Offset(code, k);
    var base := Offset(code, s + 1) + 4 * code[s].operand.w;
    TargetOffset(bytes, raw, code, k);
    SwitchBaseOfArgs(code, s, k);
    Pow256Values();
    WrapsBack(base, Field(bytes, at, 4), raw[k].operand.w);
    assert Displacement(code, k) == raw[k].operand.w - base;
    LongOperand(code, k, bytes[at..at + 4]);
    assert LeadBytes(SWITCH_ARG) == bytes[at..at];
    SliceFromParts(code, bytes, k, at, at + 4);
  }

  lemma {:induction false} ReencodeArgs(bytes: seq<byte>, raw: Code, code: Code, s: nat, end: nat, k: nat)
    requires Imported(bytes, raw, code) && s < k <= end <= |raw|
    requires code[s].opcode == SWITCH && code[s].operand == Bits(end - s - 1)
    requires Offset(code, s + 1) + 4 * (end - s - 1) <= |bytes|
    requires ArgsRead(bytes, Offset(code, s + 1), Offset(code, s + 1) + 4 * (end - s - 1), raw, s, end)
    ensures Offset(code, k) == Offset(code, s + 1) + 4 * (k - s - 1)
    ensures forall i :: s < i < k ==> code[i].opcode == SWITCH_ARG && SliceIs(code, bytes, i) && !OutOfRange(code, i)
    decreases k
  {
    hide SliceIs, OutOfRange, Field, Displacement;
    if k > s + 1 {
      ReencodeArgs(bytes, raw, code, s, end, k - 1);
      assert ResolvesAt(raw, code, k - 1);
      ReencodeArg(bytes, raw, code, s, k - 1);
    }
  }

  lemma {:induction false} SwitchesOkAfterArgs(code: Code, k: nat, count: nat)
    requires Exportable(code) && k + count <= |code|
    requires forall i :: k <= i < k + count ==> code[i].opcode == SWITCH_ARG
    requires SwitchesOk(code, k + count, 0)
    ensures SwitchesOk(code, k, count)
    decreases count
  {
    if count > 0 {
      SwitchesOkAfterArgs(code, k + 1, count - 1);
    }
  }

  ghost predicate ReencodedFrom(bytes: seq<byte>, code: Code, k: nat)
    requires Exportable(code) && k <= |code|
  {
    && SwitchesOk(code, k, 0)
    && forall j :: k <= j < |code| ==> SliceIs(code, bytes, j) && !OutOfRange(code, j)
  }

  /** From position k on, the list imported from the bytes at `at` encodes to those bytes. */
  lemma {:induction false} ReencodeFrom(bytes: seq<byte>, raw: Code, code: Code, at: nat, k: nat)
    requires Imported(bytes, raw, code) && k <= |raw| && Offset(code, k) == at <= |bytes|
    requires ReadBody(bytes, at).Some? && raw[k..] == ReadBody(bytes, at).value
    ensures ReencodedFrom(bytes, code, k)
    decreases |bytes| - at
  {
    hide SliceIs, OutOfRange, ReadInstr, ReadOpcode, Offset;
    if at < |bytes| {
      var first := ReadInstr(bytes, at);
      var op := ReadOpcode(bytes, at);
      var n := |first.value|;
      assert first.value == raw[k..k + n] by {
        assert raw[k..] == first.value + ReadBody(bytes, first.next).value;
      }
      assert raw[k + n..] == ReadBody(bytes, first.next).value by {
        assert raw[k + n..] == raw[k..][n..];
      }
      assert raw[k] == first.value[0];
      if FlagsOf(op.value).SwitchTable? {
        ReencodeSwitch(bytes, raw, code, at, k);
        ReencodeSwitchGroup(bytes, raw, code, at, k);
        ReencodeFrom(bytes, raw, code, first.next, k + n);
        SwitchesOkAfterArgs(code, k + 1, n - 1);
      } else {
        ReencodePlain(bytes, raw, code, at, k);
        ReencodeFrom(bytes, raw, code, first.next, k + 1);
      }
    } else {
      assert |raw| == k;
    }
  }

  lemma ReencodeSwitchGroup(bytes: seq<byte>, raw: Code, code: Code, at: nat, k: nat)
    requires Imported(bytes, raw, code) && k < |raw| && Offset(code, k) == at < |bytes|
    requires ReadInstr(bytes, at).Read? && FlagsOf(ReadOpcode(bytes, at).value).SwitchTable?
    requires k + |ReadInstr(bytes, at).value| <= |raw|
    requires ReadInstr(bytes, at).value == raw[k..k + |ReadInstr(bytes, at).value|]
    ensures code[k].operand.Bits? && |ReadInstr(bytes, at).value| == 1 + code[k].operand.w
    ensures Offset(code, k + |ReadInstr(bytes, at).value|) == ReadInstr(bytes, at).next
    ensures forall i :: k + 1 <= i < k + |ReadInstr(bytes, at).value| ==>
              code[i].opcode == SWITCH_ARG && SliceIs(code, bytes, i) && !OutOfRange(code, i)
  {
    hide SliceIs, OutOfRange, ReadOpcode, ReadInstr, SwitchArgAt;
    var group := ReadInstr(bytes, at).value;
    var args := ReadOpcode(bytes, at).next + 4;
    var count := ReadSwitchGroup(bytes, at);
    assert raw[k] == group[0];
    ReencodeSwitch(bytes, raw, code, at, k);
    assert ResolvesAt(raw, code, k);
    assert ArgsRead(bytes, args, args + 4 * count, raw, k, k + 1 + count) by {
      forall i | k < i < k + 1 + count
        ensures raw[i] == SwitchArgAt(bytes, args + 4 * (i - k - 1), args + 4 * count)
      {
        assert raw[i] == group[i - k];
      }
    }
    ReencodeArgs(bytes, raw, code, k, k + 1 + count, k + 1 + count);
  }

  lemma SwitchIsRead(bytes: seq<byte>, at: nat)
    requires at < |bytes| < MAX_SIZE
    requires ReadInstr(bytes, at).Read? && FlagsOf(ReadOpcode(bytes, at).value).SwitchTable?
    ensures ReadOpcode(bytes, at).next <= |bytes|
    ensures ReadInstr(bytes, at) == ReadSwitch(bytes, ReadOpcode(bytes, at).next)
  {
    hide ReadSwitch;
  }

  /** The nodes a switch is read as. */
  lemma ReadSwitchGroup(bytes: seq<byte>, at: nat) returns (count: nat)
    requires at < |bytes| < MAX_SIZE
    requires ReadInstr(bytes, at).Read? && FlagsOf(ReadOpcode(bytes, at).value).SwitchTable?
    ensures SwitchGroup(bytes, ReadOpcode(bytes, at).next + 4, count, ReadInstr(bytes, at))
  {
    hide ReadOpcode, ReadInstr, SwitchArgAt, Field, FlagsOf;
    SwitchIsRead(bytes, at);
    var next := ReadOpcode(bytes, at).next;
    count := Field(bytes, next, 4);
    SwitchArgsRead(bytes, next + 4, (next + 4 + 4 * count) % TWO_32, count, Instr(SWITCH, Bits(count)));
  }

  ghost predicate SwitchGroup(bytes: seq<byte>, args: nat, count: nat, group: Read<Code>) {
    && group.Read?
    && group.next == args + 4 * count <= |bytes|
    && |group.value| == 1 + count
    && group.value[0] == Instr(SWITCH, Bits(count))
    && ArgsRead(bytes, args, args + 4 * count, group.value, 0, 1 + count)
  }

  /** Exporting an untouched import reproduces the bytes, with no branch widened. */
  lemma ImportExportRoundTrip(bytes: seq<byte>, code: Code)
    requires |bytes| < 0x8000_0000 && Imports(bytes, code)
    ensures Exportable(code) && SwitchesOk(code, 0, 0)
    ensures Fits(code) && Relax(code) == code && Encode(code) == bytes
  {
    var raw := ReadBody(bytes, 0).value;
    ImportsExportable(bytes, code);
    ReadBodySize(bytes, 0);
    assert raw[0..] == raw;
    ReencodeFrom(bytes, raw, code, 0, 0);
    forall i | 0 <= i < |raw| ensures raw[i].opcode == code[i].opcode {
      assert ResolvesAt(raw, code, i);
    }
    OffsetOfPrefix(raw, code, |code|);
    EncodingFromSlices(code, bytes, |code|);
    assert bytes[..|bytes|] == bytes;
  }
}
