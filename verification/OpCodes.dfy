/**
 The opcode tables of the rewriter: operand flags and stack pushes, one entry per line of opcode.def,
 followed by the two entries the rewriter adds (CEE_COUNT and CEE_SWITCH_ARG).
 */
module OpCodes {

  const NOP := 0x00
  const LDARG_0 := 0x02
  const LDLOC_0 := 0x06
  const STLOC_0 := 0x0A
  const LDARG_S := 0x0E
  const LDLOC_S := 0x11
  const LDLOCA_S := 0x12
  const STLOC_S := 0x13
  const LDNULL := 0x14
  const LDC_I4_M1 := 0x15
  const LDC_I4_0 := 0x16
  const LDC_I4_S := 0x1F
  const LDC_I4 := 0x20
  const DUP := 0x25
  const JMP := 0x27
  const CALL := 0x28
  const RET := 0x2A
  const BR_S := 0x2B
  const BLT_UN_S := 0x37
  const BR := 0x38
  const BLT_UN := 0x44
  const SWITCH := 0x45
  const CALLVIRT := 0x6F
  const LDOBJ := 0x71
  const THROW := 0x7A
  const BOX := 0x8C
  const NEWARR := 0x8D
  const STELEM_REF := 0xA2
  const ENDFINALLY := 0xDC
  const LEAVE := 0xDD
  const LEAVE_S := 0xDE
  const PREFIX7 := 0xF8
  const PREFIX2 := 0xFD
  const PREFIX1 := 0xFE
  const LDARG := 0x109
  const LDLOC := 0x10C
  const LDLOCA := 0x10D
  const STLOC := 0x10E
  const ENDFILTER := 0x111
  const TAILCALL := 0x114
  const RETHROW := 0x11A
  const COUNT := 0x126
  const SWITCH_ARG := 0x127
  const TABLE_SIZE := 0x128

  /** How an instruction's operand is encoded: the rewriter's flag byte, spelled out. */
  datatype Flags = Plain(size: nat) | ShortBranch | LongBranch | SwitchTable

  function FlagsOf(op: nat): (f: Flags)
    requires op < TABLE_SIZE
    ensures f.Plain? ==> f.size in {0, 1, 2, 4, 8}
    ensures f.Plain? && op >= 0x100 ==> f.size <= 4
    ensures f.ShortBranch? <==> IsShort(op)
    ensures f.SwitchTable? <==> op == SWITCH
    ensures op == SWITCH_ARG ==> f.LongBranch?
  {
    if 0x0E <= op <= 0x13 || op == 0x1F || op == 0x112 then Plain(1)
    else if 0x109 <= op <= 0x10E then Plain(2)
    else if op == 0x21 || op == 0x23 then Plain(8)
    else if BR_S <= op <= BLT_UN_S || op == LEAVE_S then ShortBranch
    else if BR <= op <= BLT_UN || op == LEAVE || op == SWITCH_ARG then LongBranch
    else if op == SWITCH then SwitchTable
    else if op == 0x20 || op == 0x22 || 0x27 <= op <= 0x29 || 0x6F <= op <= 0x75 || op == 0x79
         || 0x7B <= op <= 0x81 || op == 0x8C || op == 0x8D || op == 0x8F || 0xA3 <= op <= 0xA5
         || op == 0xC2 || op == 0xC6 || op == 0xD0 || op == 0x106 || op == 0x107
         || op == 0x115 || op == 0x116 || op == 0x11C then Plain(4)
    else Plain(0)
  }

  /** Entries the rewriter adds to its stack-depth estimate for one instruction. */
  function Pushes(op: nat): (n: nat)
    requires op < TABLE_SIZE
    ensures n <= 2
  {
    if op == DUP then 2
    else if 0x02 <= op <= 0x09 || op == 0x0E || op == 0x0F || op == 0x11 || op == 0x12 || 0x14 <= op <= 0x23
         || op == 0x28 || op == 0x29 || 0x46 <= op <= 0x50 || 0x58 <= op <= 0x6F || 0x71 <= op <= 0x76
         || op == 0x79 || op == 0x7B || op == 0x7C || op == 0x7E || op == 0x7F || 0x82 <= op <= 0x9A
         || op == 0xA3 || op == 0xA5 || 0xB3 <= op <= 0xBA || op == 0xC2 || op == 0xC3 || op == 0xC6
         || 0xD0 <= op <= 0xDB || op == 0xE0 || 0x100 <= op <= 0x107 || op == 0x109 || op == 0x10A
         || op == 0x10C || op == 0x10D || op == 0x10F || op == 0x11C || op == 0x11D then 1
    else 0
  }

  predicate IsBranch(op: nat)
    requires op < TABLE_SIZE
  {
    FlagsOf(op).ShortBranch? || FlagsOf(op).LongBranch?
  }

  predicate IsShort(op: nat) {
    BR_S <= op <= BLT_UN_S || op == LEAVE_S
  }

  /** The long form a short branch is widened to. */
  function LongForm(op: nat): (long: nat)
    requires IsShort(op)
    ensures BR <= long <= BLT_UN || long == LEAVE
  {
    if op == LEAVE_S then LEAVE else op - BR_S + BR
  }

  /** Bytes of the opcode itself: none for the two internal opcodes, a 0xFE lead byte above 0xFF. */
  function LeadSize(op: nat): (n: nat)
    ensures n <= 2
  {
    if op >= COUNT then 0 else if op >= 0x100 then 2 else 1
  }

  /** Bytes of the operand. */
  function OperandSize(op: nat): (n: nat)
    requires op < TABLE_SIZE
    ensures n <= 8
  {
    match FlagsOf(op)
    case Plain(size) => size
    case ShortBranch => 1
    case LongBranch => 4
    case SwitchTable => 4
  }

  function SizeOf(op: nat): (n: nat)
    requires op < TABLE_SIZE
    ensures n <= 10
  {
    LeadSize(op) + OperandSize(op)
  }

  /** Opcodes the importer accepts: prefix bytes other than 0xFE stand for no instruction. */
  predicate Importable(op: nat) {
    op < COUNT && !(PREFIX7 <= op <= PREFIX1)
  }

  lemma LongFormKeepsPushes(op: nat)
    requires IsShort(op)
    ensures LongForm(op) < TABLE_SIZE && FlagsOf(LongForm(op)).LongBranch? && Importable(LongForm(op))
    ensures Pushes(LongForm(op)) == Pushes(op)
    ensures SizeOf(LongForm(op)) == SizeOf(op) + 3
  {
  }
}
