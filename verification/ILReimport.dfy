/** The other round trip: importing what was exported gives back the list that was exported. */
module ILReimport {
  import opened Bytes
  import opened OpCodes
  import opened ILCode
  import opened Relaxation
  import opened ILFormat

  /** Lists a body can hold: importable opcodes, switches with their arguments, branches to instruction starts. */
  predicate Storable(code: Code) {
    && Exportable(code)
    && SwitchesOk(code, 0, 0)
    && (forall k :: 0 <= k < |code| ==> Importable(code[k].opcode) || code[k].opcode == SWITCH_ARG)
    && (forall k :: 0 <= k < |code| && code[k].operand.Target? ==> LandsOnInstr(code, code[k].operand.to))
  }

  predicate LandsOnInstr(code: Code, t: nat) {
    t < |code| ==> code[t].opcode != SWITCH_ARG
  }

  /** The list before resolving: branches hold offsets. */
  function Unresolved(code: Code): (raw: Code)
    requires Exportable(code)
    ensures |raw| == |code|
  {
    seq(|code|, k requires 0 <= k < |code| => UnresolvedAt(code, k))
  }

  function UnresolvedAt(code: Code, k: nat): Instr
    requires Exportable(code) && k < |code|
  {
    assert OperandOk(code, k);
    if IsBranch(code[k].opcode) then Instr(code[k].opcode, Bits(Offset(code, code[k].operand.to))) else code[k]
  }

  ghost predicate Stored(bytes: seq<byte>, code: Code) {
    && Storable(code) && Fits(code)
    && bytes == Encode(code) && |bytes| < MAX_SIZE
  }

  /** Where instruction k sits in the encoding, part by part. */
  lemma StoredParts(bytes: seq<byte>, code: Code, k: nat)
    requires Stored(bytes, code) && k < |code|
    ensures var at := Offset(code, k);
            var mid := at + LeadSize(code[k].opcode);
            && at <= mid <= Offset(code, k + 1) <= |bytes|
            && bytes[at..mid] == LeadBytes(code[k].opcode)
            && bytes[mid..Offset(code, k + 1)] == OperandBytes(code, k)
  {
    hide FlagsOf, LeadSize, LeadBytes, OperandBytes, Fits;
    SliceOfEncoding(code, k);
    var at, end := Offset(code, k), Offset(code, k + 1);
    var mid := at + LeadSize(code[k].opcode);
    var slice := bytes[at..end];
    assert slice == LeadBytes(code[k].opcode) + OperandBytes(code, k);
    assert bytes[at..mid] == slice[..mid - at];
    assert bytes[mid..end] == slice[mid - at..];
  }

  lemma OpcodeReadsBack(bytes: seq<byte>, code: Code, k: nat)
    requires Stored(bytes, code) && k < |code| && Importable(code[k].opcode)
    ensures Offset(code, k) < |bytes|
    ensures ReadOpcode(bytes, Offset(code, k)) == Read(code[k].opcode, Offset(code, k) + LeadSize(code[k].opcode))
  {
    hide FlagsOf, OperandBytes, Fits, Offset, Encode, SwitchesOk;
    StoredParts(bytes, code, k);
    var at := Offset(code, k);
    var lead := LeadBytes(code[k].opcode);
    assert bytes[at] == lead[0];
    if code[k].opcode >= 0x100 {
      assert bytes[at + 1] == lead[1];
    }
  }

  lemma DisplacementBound(code: Code, k: nat)
    requires Exportable(code) && CodeSize(code) < MAX_SIZE && k < |code| && IsBranch(code[k].opcode)
    requires BranchBase(code, k) < MAX_SIZE
    ensures OperandOk(code, k) && 0 <= Offset(code, code[k].operand.to) < MAX_SIZE
    ensures -0x8000_0000 < Displacement(code, k) < 0x8000_0000
  {
    hide FlagsOf, Offset;
    assert OperandOk(code, k);
    OffsetGap(code, code[k].operand.to, |code|);
  }

  /** Adding a stored 32-bit displacement to its base lands on the target. */
  lemma LongLands(base: nat, target: nat, w: nat)
    requires base < MAX_SIZE && target < MAX_SIZE && w == (target - base) % TWO_32
    ensures (base + w) % TWO_32 == target
  {
  }

  lemma ShortLands(base: nat, target: nat, b: byte)
    requires base < MAX_SIZE && target < MAX_SIZE && -128 <= target - base <= 127 && b == (target - base) % 256
    ensures Signed8(b) == target - base && (base + Signed8(b)) % TWO_32 == target
  {
  }

  lemma PlainReadsBack(bytes: seq<byte>, code: Code, k: nat)
    requires Stored(bytes, code) && k < |code| && Importable(code[k].opcode) && code[k].opcode != SWITCH
    ensures Offset(code, k) < |bytes|
    ensures ReadInstr(bytes, Offset(code, k)) == Read([UnresolvedAt(code, k)], Offset(code, k + 1))
  {
    hide FlagsOf, Fits, Encode, ReadOpcode, FromLe, SwitchesOk, Pow256, Le;
    OpcodeReadsBack(bytes, code, k);
    StoredParts(bytes, code, k);
    assert OperandOk(code, k);
    var mid, end := Offset(code, k) + LeadSize(code[k].opcode), Offset(code, k + 1);
    match FlagsOf(code[k].opcode) {
      case Plain(size) =>
        FromLeOfLe(code[k].operand.w, size);
      case ShortBranch =>
        DisplacementBound(code, k);
        ShortReadsBack(code, k, end);
        assert bytes[mid..end][0] == bytes[mid];
      case LongBranch =>
        DisplacementBound(code, k);
        Pow256Values();
        FromLeOfLe(Displacement(code, k) % TWO_32, 4);
        LongLands(end, Offset(code, code[k].operand.to), Displacement(code, k) % TWO_32);
    }
  }

  lemma ShortReadsBack(code: Code, k: nat, base: nat)
    requires Exportable(code) && Fits(code) && k < |code| && FlagsOf(code[k].opcode).ShortBranch?
    requires base == BranchBase(code, k) < MAX_SIZE && CodeSize(code) < MAX_SIZE
    ensures OperandOk(code, k) && OperandBytes(code, k) == [Displacement(code, k) % 256]
    ensures (base + Signed8(OperandBytes(code, k)[0])) % TWO_32 == Offset(code, code[k].operand.to)
  {
    hide FlagsOf, SwitchesOk;
    assert OperandOk(code, k) && !OutOfRange(code, k);
    DisplacementBound(code, k);
    var b: byte := Displacement(code, k) % 256;
    assert Le(b, 1) == [b] + Le(0, 0);
    ShortLands(base, Offset(code, code[k].operand.to), b);
  }

  /** `count` arguments from position k on read back, given the base all of them count from. */
  lemma {:induction false} ArgsReadBack(bytes: seq<byte>, code: Code, s: nat, k: nat, count: nat)
    requires Stored(bytes, code) && s < k <= |code| && code[s].opcode == SWITCH && code[s].operand.Bits?
    requires k + count == s + 1 + code[s].operand.w
    requires Offset(code, k) == Offset(code, s + 1) + 4 * (k - s - 1)
    requires forall i :: s < i < k ==> code[i].opcode == SWITCH_ARG
    requires SwitchesOk(code, k, count)
    ensures k + count <= |code| && SwitchesOk(code, k + count, 0) && Offset(code, k) <= |bytes|
    ensures Offset(code, k + count) == Offset(code, k) + 4 * count <= |bytes|
    ensures ReadSwitchArgs(bytes, Offset(code, k), SwitchEnd(code, s), count)
            == Read(Unresolved(code)[k..k + count], Offset(code, k + count))
    decreases count
  {
    hide FlagsOf, FromLe, Encode, Fits, SwitchArgAt, Unresolved, UnresolvedAt, SizeOf, Offset, InstrBytes;
    OffsetGap(code, k, |code|);
    var raw := Unresolved(code);
    if count > 0 {
      ArgSize(code, k);
      ArgsReadBack(bytes, code, s, k + 1, count - 1);
      ArgReadsBack(bytes, code, s, k);
      UnresolvedIndex(code, k);
      assert raw[k..k + count] == [raw[k]] + raw[k + 1..k + count];
    } else {
      assert raw[k..k] == [];
    }
  }

  lemma ArgSize(code: Code, k: nat)
    requires Exportable(code) && k < |code| && code[k].opcode == SWITCH_ARG
    ensures Offset(code, k + 1) == Offset(code, k) + 4
  {
    SizeOfSwitch();
  }

  /** The offset just past a switch and its arguments, counted in its own bytes. */
  function SwitchEnd(code: Code, s: nat): nat
    requires Exportable(code) && s < |code| && code[s].operand.Bits?
  {
    Offset(code, s + 1) + 4 * code[s].operand.w
  }

  lemma ArgReadsBack(bytes: seq<byte>, code: Code, s: nat, k: nat)
    requires Stored(bytes, code) && s < k < |code| && code[s].opcode == SWITCH && code[s].operand.Bits?
    requires forall i :: s < i <= k ==> code[i].opcode == SWITCH_ARG
    requires SwitchEnd(code, s) <= |bytes|
    ensures Offset(code, k + 1) == Offset(code, k) + 4 <= |bytes|
    ensures SwitchArgAt(bytes, Offset(code, k), SwitchEnd(code, s)) == UnresolvedAt(code, k)
  {
    hide FromLe, Encode, Fits, SwitchesOk, Le, Pow256;
    SwitchBaseOfArgs(code, s, k);
    StoredParts(bytes, code, k);
    var at := Offset(code, k);
    DisplacementBound(code, k);
    Pow256Values();
    FromLeOfLe(Displacement(code, k) % TWO_32, 4);
    LongLands(SwitchEnd(code, s), Offset(code, code[k].operand.to), Displacement(code, k) % TWO_32);
    assert bytes[at..at + 4] == OperandBytes(code, k);
  }

  lemma SwitchReadsBack(bytes: seq<byte>, code: Code, s: nat)
    requires Stored(bytes, code) && s < |code| && code[s].opcode == SWITCH && SwitchesOk(code, s, 0)
    ensures code[s].operand.Bits? && Offset(code, s) < |bytes|
    ensures var next := s + 1 + code[s].operand.w;
            && next <= |code| && SwitchesOk(code, next, 0)
            && ReadInstr(bytes, Offset(code, s)) == Read(Unresolved(code)[s..next], Offset(code, next))
  {
    hide FlagsOf, Encode, Fits, FromLe, Le, ReadOpcode, ReadSwitchArgs, ReadSwitch, Unresolved;
    assert OperandOk(code, s);
    OpcodeReadsBack(bytes, code, s);
    SwitchGroupReadsBack(bytes, code, s);
    assert ReadInstr(bytes, Offset(code, s)) == ReadSwitch(bytes, Offset(code, s) + 1);
  }

  lemma SwitchGroupReadsBack(bytes: seq<byte>, code: Code, s: nat)
    requires Stored(bytes, code) && s < |code| && code[s].opcode == SWITCH && SwitchesOk(code, s, 0)
    ensures code[s].operand.Bits? && Offset(code, s) < |bytes|
    ensures var next := s + 1 + code[s].operand.w;
            && next <= |code| && SwitchesOk(code, next, 0)
            && ReadSwitch(bytes, Offset(code, s) + 1) == Read(Unresolved(code)[s..next], Offset(code, next))
  {
    hide Encode, Fits, FromLe, Le, Pow256, ReadSwitchArgs, FlagsOf;
    assert OperandOk(code, s);
    var count := code[s].operand.w;
    StoredParts(bytes, code, s);
    FromLeOfLe(count, 4);
    var at := Offset(code, s) + 1;
    assert bytes[at..at + 4] == Le(count, 4);
    ArgsReadBack(bytes, code, s, s + 1, count);
    var next := s + 1 + count;
    assert Unresolved(code)[s..next] == [code[s]] + Unresolved(code)[s + 1..next];
  }

  /** One instruction read, and the body behind it. */
  lemma BodyUnfolds(bytes: seq<byte>, at: nat, first: Code, next: nat, rest: Code)
    requires at < |bytes| && next <= |bytes| && ReadInstr(bytes, at) == Read(first, next)
    requires ReadBody(bytes, next) == Some(rest)
    ensures ReadBody(bytes, at) == Some(first + rest)
  {
    hide ReadInstr;
  }

  lemma {:induction false} BodyReadsBack(bytes: seq<byte>, code: Code, k: nat)
    requires Stored(bytes, code) && k <= |code| && SwitchesOk(code, k, 0)
    ensures Offset(code, k) <= |bytes| && ReadBody(bytes, Offset(code, k)) == Some(Unresolved(code)[k..])
    decreases |code| - k
  {
    hide FlagsOf, Encode, Fits, ReadInstr, UnresolvedAt, Unresolved, Offset, SizeOf, ReadBody;
    OffsetGap(code, k, |code|);
    var raw := Unresolved(code);
    if k == |code| {
      NothingLeft(bytes);
      assert raw[k..] == [];
    } else {
      var next := k + 1;
      if code[k].opcode == SWITCH {
        SwitchReadsBack(bytes, code, k);
        next := k + 1 + code[k].operand.w;
      } else {
        PlainReadsBack(bytes, code, k);
        UnresolvedIndex(code, k);
        assert raw[k..next] == [raw[k]];
      }
      BodyReadsBack(bytes, code, next);
      BodyUnfolds(bytes, Offset(code, k), raw[k..next], Offset(code, next), raw[next..]);
      assert raw[k..] == raw[k..next] + raw[next..];
    }
  }

  lemma NothingLeft(bytes: seq<byte>)
    ensures ReadBody(bytes, |bytes|) == Some([])
  {
  }

  lemma UnresolvedIndex(code: Code, k: nat)
    requires Exportable(code) && k < |code|
    ensures Unresolved(code)[k] == UnresolvedAt(code, k)
  {
  }

  lemma UnresolvedResolves(code: Code)
    requires Storable(code)
    ensures Resolves(Unresolved(code), code)
  {
    hide FlagsOf, SwitchesOk, Offset;
    var raw := Unresolved(code);
    forall k | 0 <= k < |raw| ensures raw[k].opcode == code[k].opcode < TABLE_SIZE {
      UnresolvedIndex(code, k);
    }
    forall k | 0 <= k < |raw| ensures ResolvesAt(raw, code, k) {
      UnresolvedIndex(code, k);
      assert OperandOk(code, k);
      if IsBranch(code[k].opcode) {
        OffsetOfPrefix(raw, code, code[k].operand.to);
        assert LandsOnInstr(code, code[k].operand.to);
      }
    }
  }

  lemma {:induction false} WideningKeepsSwitches(a: Code, b: Code, k: nat, pending: nat)
    requires Exportable(a) && Exportable(b) && Widens(a, b) && k <= |a| && SwitchesOk(a, k, pending)
    ensures SwitchesOk(b, k, pending)
    decreases |a| - k
  {
    hide FlagsOf;
    if k < |a| {
      assert OperandOk(a, k) && OperandOk(b, k);
      if a[k].opcode == SWITCH_ARG {
        WideningKeepsSwitches(a, b, k + 1, pending - 1);
      } else {
        WideningKeepsSwitches(a, b, k + 1, if a[k].opcode == SWITCH then a[k].operand.w else 0);
      }
    }
  }

  lemma WideningKeepsStorable(a: Code, b: Code)
    requires Storable(a) && Widens(a, b)
    ensures Storable(b)
  {
    hide FlagsOf;
    WidensKeepsExportable(a, b);
    WideningKeepsSwitches(a, b, 0, 0);
    forall k | 0 <= k < |b| ensures Importable(b[k].opcode) || b[k].opcode == SWITCH_ARG {
      assert a[k].operand == b[k].operand;
    }
    forall k | 0 <= k < |b| && b[k].operand.Target? ensures LandsOnInstr(b, b[k].operand.to) {
      assert LandsOnInstr(a, a[k].operand.to);
    }
  }

  /**
   Importing the export of any storable list gives the relaxed list: the same instructions and the same
   target positions, with some short branches now long.
   */
  lemma ExportImportRoundTrip(code: Code)
    requires Storable(code) && CodeSize(Relax(code)) < 0x8000_0000
    ensures Widens(code, Relax(code)) && Imports(Encode(Relax(code)), Relax(code))
  {
    hide FlagsOf;
    var r := Relax(code);
    WideningKeepsStorable(code, r);
    BodyReadsBack(Encode(r), r, 0);
    assert Unresolved(r)[0..] == Unresolved(r);
    UnresolvedResolves(r);
  }

  /** An import has only one result. */
  lemma ImportIsUnique(bytes: seq<byte>, a: Code, b: Code)
    requires Imports(bytes, a) && Imports(bytes, b)
    ensures a == b
  {
    hide FlagsOf;
    var raw := ReadBody(bytes, 0).value;
    ReadBodyRaw(bytes, 0);
    forall k | 0 <= k < |raw| ensures a[k] == b[k] {
      assert ResolvesAt(raw, a, k) && ResolvesAt(raw, b, k);
      if IsBranch(raw[k].opcode) {
        var t, u := a[k].operand.to, b[k].operand.to;
        RawSizesPositive(raw);
        if t < u {
          OffsetStrict(raw, t, u);
        } else if u < t {
          OffsetStrict(raw, u, t);
        }
      }
    }
  }

  lemma RawSizesPositive(raw: Code)
    requires RawOk(raw)
    ensures forall k :: 0 <= k < |raw| ==> SizeOf(raw[k].opcode) > 0
  {
  }

  // ---- displacements of any list

  /** Switch arguments that are owed take their bytes before the end. */
  lemma {:induction false} OwedBytes(code: Code, k: nat, pending: nat)
    requires Exportable(code) && k <= |code| && SwitchesOk(code, k, pending)
    ensures Offset(code, k) + 4 * pending <= CodeSize(code)
    decreases |code| - k
  {
    if pending > 0 {
      OwedBytes(code, k + 1, pending - 1);
    } else {
      OffsetGap(code, k, |code|);
    }
  }

  /** Where the switch arguments count from: behind the last argument, inside the body. */
  lemma {:induction false} SwitchBaseInside(code: Code, k: nat, pending: nat, j: nat)
    requires Exportable(code) && k <= j < |code| && code[j].opcode == SWITCH_ARG && SwitchesOk(code, k, pending)
    requires pending > 0 ==> SwitchBase(code, k) == Offset(code, k) + 4 * pending
    ensures Offset(code, j) < SwitchBase(code, j) <= CodeSize(code)
    decreases j - k
  {
    hide FlagsOf;
    if k == j {
      OwedBytes(code, k, pending);
    } else {
      assert OperandOk(code, k);
      SizeOfSwitch();
      SwitchBaseInside(code, k + 1,
                       if code[k].opcode == SWITCH_ARG then pending - 1
                       else if code[k].opcode == SWITCH then code[k].operand.w else 0, j);
    }
  }

  lemma SizeOfSwitch()
    ensures SizeOf(SWITCH) == 5 && SizeOf(SWITCH_ARG) == 4
  {
  }

  lemma BaseInside(code: Code, k: nat)
    requires Exportable(code) && SwitchesOk(code, 0, 0) && k < |code|
    ensures BranchBase(code, k) <= CodeSize(code)
  {
    hide SwitchesOk, Offset, SwitchBase;
    if code[k].opcode == SWITCH_ARG {
      SwitchBaseInside(code, 0, 0, k);
    } else {
      OffsetGap(code, k + 1, |code|);
    }
  }

  /** A short branch reaches exactly if some signed byte is its displacement. */
  lemma ReachesIff(code: Code, k: nat)
    requires Exportable(code) && k < |code| && IsShort(code[k].opcode)
    ensures !OutOfRange(code, k) <==> exists b: byte :: Signed8(b) == Displacement(code, k)
  {
    hide Displacement;
    if !OutOfRange(code, k) {
      var b: byte := Displacement(code, k) % 256;
      assert Signed8(b) == Displacement(code, k);
    }
  }

  /** The displacement of instruction k of an encoding, read back as the runtime reads it, leads to its target. */
  predicate Lands(code: Code, k: nat)
    requires Exportable(code) && k < |code| && IsBranch(code[k].opcode)
  {
    assert OperandOk(code, k);
    var base, target := BranchBase(code, k), Offset(code, code[k].operand.to);
    if FlagsOf(code[k].opcode).ShortBranch? then base + Signed8(OperandBytes(code, k)[0]) == target
    else (base + FromLe(OperandBytes(code, k))) % TWO_32 == target
  }

  lemma FittingLands(code: Code, k: nat)
    requires Exportable(code) && SwitchesOk(code, 0, 0) && Fits(code) && CodeSize(code) < MAX_SIZE
    requires k < |code| && IsBranch(code[k].opcode)
    ensures Lands(code, k)
  {
    hide SwitchesOk, Offset, Le, FromLe, BranchBase;
    assert OperandOk(code, k);
    BaseInside(code, k);
    DisplacementBound(code, k);
    var base := BranchBase(code, k);
    if FlagsOf(code[k].opcode).ShortBranch? {
      ShortReadsBack(code, k, base);
    } else {
      Pow256Values();
      FromLeOfLe(Displacement(code, k) % TWO_32, 4);
      LongLands(base, Offset(code, code[k].operand.to), Displacement(code, k) % TWO_32);
    }
  }

  /**
   On exit every branch and every switch argument of any list lands on its target, whatever branches to what: a
   displacement added to its base gives the offset of the instruction the list names, or the end.
   */
  lemma DisplacementsLand(code: Code)
    requires Exportable(code) && SwitchesOk(code, 0, 0) && CodeSize(Relax(code)) < 0x8000_0000
    ensures var r := Relax(code);
            forall k :: 0 <= k < |r| && IsBranch(r[k].opcode) ==> r[k].operand == code[k].operand && Lands(r, k)
  {
    hide SwitchesOk, Lands, Relax, CodeSize;
    var r := Relax(code);
    WideningKeepsSwitches(code, r, 0, 0);
    forall k | 0 <= k < |r| && IsBranch(r[k].opcode) ensures r[k].operand == code[k].operand && Lands(r, k) {
      FittingLands(r, k);
    }
  }
}
