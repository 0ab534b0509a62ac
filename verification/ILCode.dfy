/**
 An instruction list as a value: opcodes with operands, where a branch names its target by position in the
 list (the list's length stands for the sentinel that closes the ring). Offsets, displacements and the
 encoding of a list to bytes are defined on it.
 */
module ILCode {
  import opened Bytes
  import opened OpCodes

  /** The operand union of an instruction: raw bits, or a branch target. */
  datatype Operand = Bits(w: nat) | Target(to: nat)

  datatype Instr = Instr(opcode: nat, operand: Operand)

  type Code = seq<Instr>

  /** Every opcode indexes the tables. */
  predicate OpcodesOk(code: Code) {
    forall k :: 0 <= k < |code| ==> code[k].opcode < TABLE_SIZE
  }

  function Offset(code: Code, k: nat): nat
    requires OpcodesOk(code) && k <= |code|
  {
    if k == 0 then 0 else Offset(code, k - 1) + SizeOf(code[k - 1].opcode)
  }

  /** Total size in bytes: the offset the exporter stores in the sentinel. */
  function CodeSize(code: Code): nat
    requires OpcodesOk(code)
  {
    Offset(code, |code|)
  }

  /** Branches have targets in the list (or the sentinel); everything else has an operand that fits its field. */
  predicate OperandOk(code: Code, k: nat)
    requires OpcodesOk(code) && k < |code|
  {
    if IsBranch(code[k].opcode) then code[k].operand.Target? && code[k].operand.to <= |code|
    else code[k].operand.Bits? && code[k].operand.w < Pow256(OperandSize(code[k].opcode))
  }

  predicate Exportable(code: Code) {
    OpcodesOk(code) && forall k :: 0 <= k < |code| ==> OperandOk(code, k)
  }

  /**
   From position k on, with `pending` switch arguments still owed: every switch is followed by exactly its own
   arguments and there are no others.
   */
  predicate SwitchesOk(code: Code, k: nat, pending: nat)
    requires Exportable(code) && k <= |code|
    decreases |code| - k
  {
    if k == |code| then pending == 0
    else if code[k].opcode == SWITCH_ARG then pending > 0 && SwitchesOk(code, k + 1, pending - 1)
    else
      assert OperandOk(code, k);
      pending == 0 && SwitchesOk(code, k + 1, if code[k].opcode == SWITCH then code[k].operand.w else 0)
  }

  /** What `switchBase` holds when the resolving loop reaches position k. */
  function SwitchBase(code: Code, k: nat): nat
    requires Exportable(code) && k <= |code|
  {
    if k == 0 then 0
    else if code[k - 1].opcode == SWITCH then
      assert OperandOk(code, k - 1);
      Offset(code, k - 1) + 1 + 4 * (code[k - 1].operand.w + 1)
    else SwitchBase(code, k - 1)
  }

  /** The position displacements of instruction k count from. */
  function BranchBase(code: Code, k: nat): nat
    requires Exportable(code) && k < |code|
  {
    if code[k].opcode == SWITCH_ARG then SwitchBase(code, k) else Offset(code, k + 1)
  }

  function Displacement(code: Code, k: nat): int
    requires Exportable(code) && k < |code| && IsBranch(code[k].opcode)
  {
    assert OperandOk(code, k);
    Offset(code, code[k].operand.to) - BranchBase(code, k)
  }

  function LeadBytes(op: nat): (bytes: seq<byte>)
    requires op < TABLE_SIZE
    ensures |bytes| == LeadSize(op)
  {
    if op >= COUNT then [] else if op >= 0x100 then [PREFIX1, op - 0x100] else [op]
  }

  function OperandBytes(code: Code, k: nat): (bytes: seq<byte>)
    requires Exportable(code) && k < |code|
    ensures |bytes| == OperandSize(code[k].opcode)
  {
    assert OperandOk(code, k);
    match FlagsOf(code[k].opcode)
    case Plain(size) => Le(code[k].operand.w, size)
    case ShortBranch => Le(Displacement(code, k) % 256, 1)
    case LongBranch => Le(Displacement(code, k) % TWO_32, 4)
    case SwitchTable => Le(code[k].operand.w, 4)
  }

  function InstrBytes(code: Code, k: nat): (bytes: seq<byte>)
    requires Exportable(code) && k < |code|
    ensures |bytes| == SizeOf(code[k].opcode)
  {
    LeadBytes(code[k].opcode) + OperandBytes(code, k)
  }

  /** The encoding of the first k instructions of a list. */
  function EncodePrefix(code: Code, k: nat): (bytes: seq<byte>)
    requires Exportable(code) && k <= |code|
    ensures |bytes| == Offset(code, k)
  {
    if k == 0 then [] else EncodePrefix(code, k - 1) + InstrBytes(code, k - 1)
  }

  function Encode(code: Code): (bytes: seq<byte>)
    requires Exportable(code)
    ensures |bytes| == CodeSize(code)
  {
    EncodePrefix(code, |code|)
  }

  // ---- offsets

  lemma {:induction false} OffsetGap(code: Code, i: nat, j: nat)
    requires OpcodesOk(code) && i <= j <= |code|
    ensures Offset(code, i) <= Offset(code, j) <= Offset(code, i) + 10 * (j - i)
    decreases j
  {
    if i < j {
      OffsetGap(code, i, j - 1);
    }
  }

  lemma {:induction false} OffsetStrict(code: Code, i: nat, j: nat)
    requires OpcodesOk(code) && i < j <= |code|
    requires forall k :: 0 <= k < |code| ==> SizeOf(code[k].opcode) > 0
    ensures Offset(code, i) < Offset(code, j)
  {
    OffsetGap(code, i, j - 1);
  }

  lemma {:induction false} OffsetOfPrefix(a: Code, b: Code, k: nat)
    requires OpcodesOk(a) && OpcodesOk(b) && k <= |a| && k <= |b|
    requires forall i :: 0 <= i < k ==> a[i].opcode == b[i].opcode
    ensures Offset(a, k) == Offset(b, k)
  {
    if k > 0 {
      OffsetOfPrefix(a, b, k - 1);
    }
  }

  // ---- slices of the encoding

  lemma {:induction false} PrefixOfEncoding(code: Code, j: nat, k: nat)
    requires Exportable(code) && j <= k <= |code|
    ensures Offset(code, j) <= Offset(code, k)
    ensures EncodePrefix(code, k)[..Offset(code, j)] == EncodePrefix(code, j)
    decreases k
  {
    hide InstrBytes, SizeOf;
    if j < k {
      PrefixOfEncoding(code, j, k - 1);
      TakeOfConcat(EncodePrefix(code, k - 1), InstrBytes(code, k - 1), Offset(code, j));
    } else {
      TakeOfConcat(EncodePrefix(code, k), [], Offset(code, k));
    }
  }

  lemma TakeOfConcat(a: seq<byte>, b: seq<byte>, n: nat)
    requires n <= |a|
    ensures (a + b)[..n] == a[..n]
    ensures a[..|a|] == a
  {
  }

  lemma {:induction false} SliceOfEncoding(code: Code, k: nat)
    requires Exportable(code) && k < |code|
    ensures Offset(code, k) <= Offset(code, k + 1) <= CodeSize(code) == |Encode(code)|
    ensures Encode(code)[Offset(code, k)..Offset(code, k + 1)] == InstrBytes(code, k)
  {
    hide InstrBytes, SizeOf;
    PrefixOfEncoding(code, k + 1, |code|);
    var p := EncodePrefix(code, k + 1);
    assert p == Encode(code)[..Offset(code, k + 1)];
    assert p[Offset(code, k)..] == InstrBytes(code, k);
    assert Encode(code)[Offset(code, k)..Offset(code, k + 1)] == p[Offset(code, k)..];
  }

  /** A byte string whose slices are the instructions' encodings is the encoding of the list. */
  lemma {:induction false} EncodingFromSlices(code: Code, bytes: seq<byte>, k: nat)
    requires Exportable(code) && k <= |code| && CodeSize(code) <= |bytes|
    requires forall j :: 0 <= j < k ==> SliceIs(code, bytes, j)
    ensures Offset(code, k) <= |bytes| && bytes[..Offset(code, k)] == EncodePrefix(code, k)
  {
    hide InstrBytes, SizeOf;
    OffsetGap(code, k, |code|);
    if k > 0 {
      EncodingFromSlices(code, bytes, k - 1);
      assert SliceIs(code, bytes, k - 1);
      assert bytes[..Offset(code, k)] == bytes[..Offset(code, k - 1)] + bytes[Offset(code, k - 1)..Offset(code, k)];
    }
  }

  predicate SliceIs(code: Code, bytes: seq<byte>, k: nat)
    requires Exportable(code) && k < |code|
  {
    && Offset(code, k + 1) <= |bytes|
    && bytes[Offset(code, k)..Offset(code, k + 1)] == InstrBytes(code, k)
  }

  /** What the layout pass writes for instruction k: everything but the displacement of a branch. */
  predicate FixedIs(code: Code, bytes: seq<byte>, k: nat)
    requires Exportable(code) && k < |code|
  {
    var at := Offset(code, k);
    var mid := at + LeadSize(code[k].opcode);
    && Offset(code, k + 1) <= |bytes|
    && bytes[at..mid] == LeadBytes(code[k].opcode)
    && (!IsBranch(code[k].opcode) ==> bytes[mid..Offset(code, k + 1)] == OperandBytes(code, k))
  }

  lemma FixedFromParts(code: Code, bytes: seq<byte>, k: nat, mid: nat)
    requires Exportable(code) && k < |code| && mid == Offset(code, k) + LeadSize(code[k].opcode)
    requires mid <= Offset(code, k + 1) <= |bytes| && bytes[Offset(code, k)..mid] == LeadBytes(code[k].opcode)
    requires IsBranch(code[k].opcode) || bytes[mid..Offset(code, k + 1)] == OperandBytes(code, k)
    ensures FixedIs(code, bytes, k)
  {
  }

  lemma FixedOfLocal(code: Code, a: seq<byte>, b: seq<byte>, k: nat)
    requires Exportable(code) && k < |code| && FixedIs(code, a, k)
    requires Offset(code, k + 1) <= |a| && Offset(code, k + 1) <= |b|
    requires a[Offset(code, k)..Offset(code, k + 1)] == b[Offset(code, k)..Offset(code, k + 1)]
    ensures FixedIs(code, b, k)
  {
    hide LeadSize, LeadBytes, OperandBytes, FlagsOf, OperandSize;
    var at, end := Offset(code, k), Offset(code, k + 1);
    var mid := at + LeadSize(code[k].opcode);
    assert a[at..end] == a[at..mid] + a[mid..end] && b[at..end] == b[at..mid] + b[mid..end];
    assert b[at..mid] == b[at..end][..mid - at] && a[at..mid] == a[at..end][..mid - at];
    assert b[mid..end] == b[at..end][mid - at..] && a[mid..end] == a[at..end][mid - at..];
  }

  /** An instruction without displacement is complete after the layout pass. */
  lemma FixedIsAll(code: Code, bytes: seq<byte>, k: nat)
    requires Exportable(code) && k < |code| && FixedIs(code, bytes, k) && !IsBranch(code[k].opcode)
    ensures SliceIs(code, bytes, k)
  {
    hide LeadSize, LeadBytes, OperandBytes, FlagsOf, OperandSize;
    var at, end := Offset(code, k), Offset(code, k + 1);
    var mid := at + LeadSize(code[k].opcode);
    assert bytes[at..end] == bytes[at..mid] + bytes[mid..end];
  }

  predicate FixedPrefix(code: Code, bytes: seq<byte>, k: nat)
    requires Exportable(code) && k <= |code|
  {
    forall j :: 0 <= j < k ==> FixedIs(code, bytes, j)
  }

  lemma FixedPrefixStable(code: Code, a: seq<byte>, b: seq<byte>, k: nat)
    requires Exportable(code) && k <= |code| && FixedPrefix(code, a, k)
    requires Offset(code, k) <= |a| && Offset(code, k) <= |b| && a[..Offset(code, k)] == b[..Offset(code, k)]
    ensures FixedPrefix(code, b, k)
  {
    hide FixedIs, SizeOf;
    forall j | 0 <= j < k ensures FixedIs(code, b, j) {
      var m := Offset(code, k);
      OffsetGap(code, j, j + 1);
      OffsetGap(code, j + 1, k);
      assert a[Offset(code, j)..Offset(code, j + 1)] == a[..m][Offset(code, j)..Offset(code, j + 1)];
      assert b[Offset(code, j)..Offset(code, j + 1)] == b[..m][Offset(code, j)..Offset(code, j + 1)];
      FixedOfLocal(code, a, b, j);
    }
  }

  /** Some of the first k instructions is a branch (or a switch argument). */
  predicate HasBranch(code: Code, k: nat)
    requires OpcodesOk(code) && k <= |code|
  {
    k > 0 && (HasBranch(code, k - 1) || IsBranch(code[k - 1].opcode))
  }

  lemma {:induction false} NoBranches(code: Code, k: nat, i: nat)
    requires OpcodesOk(code) && i < k <= |code| && !HasBranch(code, k)
    ensures !IsBranch(code[i].opcode)
  {
    if i < k - 1 {
      NoBranches(code, k - 1, i);
    }
  }

  /** A slice within an unchanged front or back part is unchanged. */
  lemma SameSlice(a: seq<byte>, b: seq<byte>, lo: nat, hi: nat, i: nat, j: nat)
    requires lo <= hi <= |a| == |b| && a[..lo] == b[..lo] && a[hi..] == b[hi..]
    requires i <= j <= lo || hi <= i <= j <= |a|
    ensures a[i..j] == b[i..j]
  {
    if j <= lo {
      assert a[i..j] == a[..lo][i..j] && b[i..j] == b[..lo][i..j];
    } else {
      forall t | i <= t < j ensures a[t] == b[t] {
        assert a[hi..][t - hi] == b[hi..][t - hi];
      }
    }
  }

  predicate FixedFrom(code: Code, bytes: seq<byte>, k: nat)
    requires Exportable(code) && k <= |code|
  {
    forall j :: k <= j < |code| ==> FixedIs(code, bytes, j)
  }

  predicate SlicesUpTo(code: Code, bytes: seq<byte>, k: nat)
    requires Exportable(code) && k <= |code|
  {
    forall j :: 0 <= j < k ==> SliceIs(code, bytes, j)
  }

  /** Changing only the bytes of instruction k leaves the others as they were. */
  lemma OthersUntouched(code: Code, a: seq<byte>, b: seq<byte>, k: nat)
    requires Exportable(code) && k < |code| && CodeSize(code) <= |a| == |b|
    requires Offset(code, k) <= Offset(code, k + 1) <= |a|
    requires a[..Offset(code, k)] == b[..Offset(code, k)] && a[Offset(code, k + 1)..] == b[Offset(code, k + 1)..]
    requires FixedFrom(code, a, k)
    ensures FixedFrom(code, b, k + 1)
    ensures SlicesUpTo(code, a, k) ==> SlicesUpTo(code, b, k)
  {
    hide FixedIs, SizeOf, InstrBytes;
    var lo, hi := Offset(code, k), Offset(code, k + 1);
    forall j | k + 1 <= j < |code| ensures FixedIs(code, b, j) {
      OffsetGap(code, k + 1, j);
      OffsetGap(code, j, j + 1);
      OffsetGap(code, j + 1, |code|);
      SameSlice(a, b, lo, hi, Offset(code, j), Offset(code, j + 1));
      FixedOfLocal(code, a, b, j);
    }
    if SlicesUpTo(code, a, k) {
      forall j | 0 <= j < k ensures SliceIs(code, b, j) {
        assert SliceIs(code, a, j);
        OffsetGap(code, j, j + 1);
        OffsetGap(code, j + 1, k);
        SameSlice(a, b, lo, hi, Offset(code, j), Offset(code, j + 1));
      }
    }
  }

  /** Patching a branch's operand, at the end of its bytes, completes it. */
  lemma PatchCompletes(code: Code, a: seq<byte>, b: seq<byte>, k: nat)
    requires Exportable(code) && k < |code| && CodeSize(code) <= |a| == |b| && IsBranch(code[k].opcode)
    requires FixedFrom(code, a, k)
    requires Offset(code, k) + LeadSize(code[k].opcode) <= Offset(code, k + 1) <= |a|
    requires a[..Offset(code, k) + LeadSize(code[k].opcode)] == b[..Offset(code, k) + LeadSize(code[k].opcode)]
    requires b[Offset(code, k) + LeadSize(code[k].opcode)..Offset(code, k + 1)] == OperandBytes(code, k)
    requires a[Offset(code, k + 1)..] == b[Offset(code, k + 1)..]
    ensures FixedFrom(code, b, k + 1)
    ensures SlicesUpTo(code, a, k) ==> SlicesUpTo(code, b, k + 1)
  {
    hide SizeOf, InstrBytes, OperandBytes, LeadBytes, SliceIs, LeadSize, FlagsOf;
    var lo, mid := Offset(code, k), Offset(code, k) + LeadSize(code[k].opcode);
    assert FixedIs(code, a, k);
    assert a[..lo] == a[..mid][..lo] && b[..lo] == b[..mid][..lo];
    assert a[lo..mid] == a[..mid][lo..] && b[lo..mid] == b[..mid][lo..];
    OthersUntouched(code, a, b, k);
    assert FixedIs(code, b, k);
    if SlicesUpTo(code, a, k) {
      BranchCompleted(code, b, k);
    }
  }

  lemma BranchCompleted(code: Code, bytes: seq<byte>, k: nat)
    requires Exportable(code) && k < |code| && FixedIs(code, bytes, k)
    requires bytes[Offset(code, k) + LeadSize(code[k].opcode)..Offset(code, k + 1)] == OperandBytes(code, k)
    ensures SliceIs(code, bytes, k)
  {
    hide LeadSize, LeadBytes, OperandBytes, FlagsOf, OperandSize;
    var at, end := Offset(code, k), Offset(code, k + 1);
    var mid := at + LeadSize(code[k].opcode);
    assert bytes[at..end] == bytes[at..mid] + bytes[mid..end];
  }
}
