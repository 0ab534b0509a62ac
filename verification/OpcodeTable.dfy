/**
 The opcode table of section VI.C.2 of ECMA-335, row by row in the order of opcode.def, and that the rewriter's flag
 byte, its stack pushes, and the opcode numbers used elsewhere agree with it.
 */
module OpcodeTable {
  import opened OpCodes

  /** How many values an instruction pops or pushes. */
  datatype Count = Exactly(n: nat) | Varies

  /** What follows an opcode in the code. */
  datatype Kind =
    | InlineNone | ShortInlineVar | InlineVar | ShortInlineI | InlineI | InlineI8 | ShortInlineR | InlineR
    | ShortInlineBrTarget | InlineBrTarget | InlineMethod | InlineField | InlineType | InlineString | InlineSig
    | InlineTok | InlineSwitch

  /** Where control goes afterwards. */
  datatype Flow = Next | Break | Call | Branch | CondBranch | Return | Throw | Meta

  datatype Row = Row(name: string, pops: Count, pushes: Count, kind: Kind, flow: Flow)

  /** A row with fixed numbers of values popped and pushed. */
  function Fixed(name: string, pops: nat, pushes: nat, kind: Kind, flow: Flow): Row {
    Row(name, Exactly(pops), Exactly(pushes), kind, flow)
  }

  function Rows000(op: nat): Row {
    match op
    case 0x00 => Fixed("nop", 0, 0, InlineNone, Next)
    case 0x01 => Fixed("break", 0, 0, InlineNone, Break)
    case 0x02 => Fixed("ldarg.0", 0, 1, InlineNone, Next)
    case 0x03 => Fixed("ldarg.1", 0, 1, InlineNone, Next)
    case 0x04 => Fixed("ldarg.2", 0, 1, InlineNone, Next)
    case 0x05 => Fixed("ldarg.3", 0, 1, InlineNone, Next)
    case 0x06 => Fixed("ldloc.0", 0, 1, InlineNone, Next)
    case 0x07 => Fixed("ldloc.1", 0, 1, InlineNone, Next)
    case 0x08 => Fixed("ldloc.2", 0, 1, InlineNone, Next)
    case 0x09 => Fixed("ldloc.3", 0, 1, InlineNone, Next)
    case 0x0A => Fixed("stloc.0", 1, 0, InlineNone, Next)
    case 0x0B => Fixed("stloc.1", 1, 0, InlineNone, Next)
    case 0x0C => Fixed("stloc.2", 1, 0, InlineNone, Next)
    case 0x0D => Fixed("stloc.3", 1, 0, InlineNone, Next)
    case 0x0E => Fixed("ldarg.s", 0, 1, ShortInlineVar, Next)
    case 0x0F => Fixed("ldarga.s", 0, 1, ShortInlineVar, Next)
    case _ => Fixed("", 0, 0, InlineNone, Next)
  }

  function Rows010(op: nat): Row {
    match op
    case 0x10 => Fixed("starg.s", 1, 0, ShortInlineVar, Next)
    case 0x11 => Fixed("ldloc.s", 0, 1, ShortInlineVar, Next)
    case 0x12 => Fixed("ldloca.s", 0, 1, ShortInlineVar, Next)
    case 0x13 => Fixed("stloc.s", 1, 0, ShortInlineVar, Next)
    case 0x14 => Fixed("ldnull", 0, 1, InlineNone, Next)
    case 0x15 => Fixed("ldc.i4.m1", 0, 1, InlineNone, Next)
    case 0x16 => Fixed("ldc.i4.0", 0, 1, InlineNone, Next)
    case 0x17 => Fixed("ldc.i4.1", 0, 1, InlineNone, Next)
    case 0x18 => Fixed("ldc.i4.2", 0, 1, InlineNone, Next)
    case 0x19 => Fixed("ldc.i4.3", 0, 1, InlineNone, Next)
    case 0x1A => Fixed("ldc.i4.4", 0, 1, InlineNone, Next)
    case 0x1B => Fixed("ldc.i4.5", 0, 1, InlineNone, Next)
    case 0x1C => Fixed("ldc.i4.6", 0, 1, InlineNone, Next)
    case 0x1D => Fixed("ldc.i4.7", 0, 1, InlineNone, Next)
    case 0x1E => Fixed("ldc.i4.8", 0, 1, InlineNone, Next)
    case 0x1F => Fixed("ldc.i4.s", 0, 1, ShortInlineI, Next)
    case _ => Fixed("", 0, 0, InlineNone, Next)
  }

  function Rows020(op: nat): Row {
    match op
    case 0x20 => Fixed("ldc.i4", 0, 1, InlineI, Next)
    case 0x21 => Fixed("ldc.i8", 0, 1, InlineI8, Next)
    case 0x22 => Fixed("ldc.r4", 0, 1, ShortInlineR, Next)
    case 0x23 => Fixed("ldc.r8", 0, 1, InlineR, Next)
    case 0x24 => Fixed("unused", 0, 0, InlineNone, Next)
    case 0x25 => Fixed("dup", 1, 2, InlineNone, Next)
    case 0x26 => Fixed("pop", 1, 0, InlineNone, Next)
    case 0x27 => Fixed("jmp", 0, 0, InlineMethod, Call)
    case 0x28 => Row("call", Varies, Varies, InlineMethod, Call)
    case 0x29 => Row("calli", Varies, Varies, InlineSig, Call)
    case 0x2A => Row("ret", Varies, Exactly(0), InlineNone, Return)
    case 0x2B => Fixed("br.s", 0, 0, ShortInlineBrTarget, Branch)
    case 0x2C => Fixed("brfalse.s", 1, 0, ShortInlineBrTarget, CondBranch)
    case 0x2D => Fixed("brtrue.s", 1, 0, ShortInlineBrTarget, CondBranch)
    case 0x2E => Fixed("beq.s", 2, 0, ShortInlineBrTarget, CondBranch)
    case 0x2F => Fixed("bge.s", 2, 0, ShortInlineBrTarget, CondBranch)
    case _ => Fixed("", 0, 0, InlineNone, Next)
  }

  function Rows030(op: nat): Row {
    match op
    case 0x30 => Fixed("bgt.s", 2, 0, ShortInlineBrTarget, CondBranch)
    case 0x31 => Fixed("ble.s", 2, 0, ShortInlineBrTarget, CondBranch)
    case 0x32 => Fixed("blt.s", 2, 0, ShortInlineBrTarget, CondBranch)
    case 0x33 => Fixed("bne.un.s", 2, 0, ShortInlineBrTarget, CondBranch)
    case 0x34 => Fixed("bge.un.s", 2, 0, ShortInlineBrTarget, CondBranch)
    case 0x35 => Fixed("bgt.un.s", 2, 0, ShortInlineBrTarget, CondBranch)
    case 0x36 => Fixed("ble.un.s", 2, 0, ShortInlineBrTarget, CondBranch)
    case 0x37 => Fixed("blt.un.s", 2, 0, ShortInlineBrTarget, CondBranch)
    case 0x38 => Fixed("br", 0, 0, InlineBrTarget, Branch)
    case 0x39 => Fixed("brfalse", 1, 0, InlineBrTarget, CondBranch)
    case 0x3A => Fixed("brtrue", 1, 0, InlineBrTarget, CondBranch)
    case 0x3B => Fixed("beq", 2, 0, InlineBrTarget, CondBranch)
    case 0x3C => Fixed("bge", 2, 0, InlineBrTarget, CondBranch)
    case 0x3D => Fixed("bgt", 2, 0, InlineBrTarget, CondBranch)
    case 0x3E => Fixed("ble", 2, 0, InlineBrTarget, CondBranch)
    case 0x3F => Fixed("blt", 2, 0, InlineBrTarget, CondBranch)
    case _ => Fixed("", 0, 0, InlineNone, Next)
  }

  function Rows040(op: nat): Row {
    match op
    case 0x40 => Fixed("bne.un", 2, 0, InlineBrTarget, CondBranch)
    case 0x41 => Fixed("bge.un", 2, 0, InlineBrTarget, CondBranch)
    case 0x42 => Fixed("bgt.un", 2, 0, InlineBrTarget, CondBranch)
    case 0x43 => Fixed("ble.un", 2, 0, InlineBrTarget, CondBranch)
    case 0x44 => Fixed("blt.un", 2, 0, InlineBrTarget, CondBranch)
    case 0x45 => Fixed("switch", 1, 0, InlineSwitch, CondBranch)
    case 0x46 => Fixed("ldind.i1", 1, 1, InlineNone, Next)
    case 0x47 => Fixed("ldind.u1", 1, 1, InlineNone, Next)
    case 0x48 => Fixed("ldind.i2", 1, 1, InlineNone, Next)
    case 0x49 => Fixed("ldind.u2", 1, 1, InlineNone, Next)
    case 0x4A => Fixed("ldind.i4", 1, 1, InlineNone, Next)
    case 0x4B => Fixed("ldind.u4", 1, 1, InlineNone, Next)
    case 0x4C => Fixed("ldind.i8", 1, 1, InlineNone, Next)
    case 0x4D => Fixed("ldind.i", 1, 1, InlineNone, Next)
    case 0x4E => Fixed("ldind.r4", 1, 1, InlineNone, Next)
    case 0x4F => Fixed("ldind.r8", 1, 1, InlineNone, Next)
    case _ => Fixed("", 0, 0, InlineNone, Next)
  }

  function Rows050(op: nat): Row {
    match op
    case 0x50 => Fixed("ldind.ref", 1, 1, InlineNone, Next)
    case 0x51 => Fixed("stind.ref", 2, 0, InlineNone, Next)
    case 0x52 => Fixed("stind.i1", 2, 0, InlineNone, Next)
    case 0x53 => Fixed("stind.i2", 2, 0, InlineNone, Next)
    case 0x54 => Fixed("stind.i4", 2, 0, InlineNone, Next)
    case 0x55 => Fixed("stind.i8", 2, 0, InlineNone, Next)
    case 0x56 => Fixed("stind.r4", 2, 0, InlineNone, Next)
    case 0x57 => Fixed("stind.r8", 2, 0, InlineNone, Next)
    case 0x58 => Fixed("add", 2, 1, InlineNone, Next)
    case 0x59 => Fixed("sub", 2, 1, InlineNone, Next)
    case 0x5A => Fixed("mul", 2, 1, InlineNone, Next)
    case 0x5B => Fixed("div", 2, 1, InlineNone, Next)
    case 0x5C => Fixed("div.un", 2, 1, InlineNone, Next)
    case 0x5D => Fixed("rem", 2, 1, InlineNone, Next)
    case 0x5E => Fixed("rem.un", 2, 1, InlineNone, Next)
    case 0x5F => Fixed("and", 2, 1, InlineNone, Next)
    case _ => Fixed("", 0, 0, InlineNone, Next)
  }

  function Rows060(op: nat): Row {
    match op
    case 0x60 => Fixed("or", 2, 1, InlineNone, Next)
    case 0x61 => Fixed("xor", 2, 1, InlineNone, Next)
    case 0x62 => Fixed("shl", 2, 1, InlineNone, Next)
    case 0x63 => Fixed("shr", 2, 1, InlineNone, Next)
    case 0x64 => Fixed("shr.un", 2, 1, InlineNone, Next)
    case 0x65 => Fixed("neg", 1, 1, InlineNone, Next)
    case 0x66 => Fixed("not", 1, 1, InlineNone, Next)
    case 0x67 => Fixed("conv.i1", 1, 1, InlineNone, Next)
    case 0x68 => Fixed("conv.i2", 1, 1, InlineNone, Next)
    case 0x69 => Fixed("conv.i4", 1, 1, InlineNone, Next)
    case 0x6A => Fixed("conv.i8", 1, 1, InlineNone, Next)
    case 0x6B => Fixed("conv.r4", 1, 1, InlineNone, Next)
    case 0x6C => Fixed("conv.r8", 1, 1, InlineNone, Next)
    case 0x6D => Fixed("conv.u4", 1, 1, InlineNone, Next)
    case 0x6E => Fixed("conv.u8", 1, 1, InlineNone, Next)
    case 0x6F => Row("callvirt", Varies, Varies, InlineMethod, Call)
    case _ => Fixed("", 0, 0, InlineNone, Next)
  }

  function Rows070(op: nat): Row {
    match op
    case 0x70 => Fixed("cpobj", 2, 0, InlineType, Next)
    case 0x71 => Fixed("ldobj", 1, 1, InlineType, Next)
    case 0x72 => Fixed("ldstr", 0, 1, InlineString, Next)
    case 0x73 => Row("newobj", Varies, Exactly(1), InlineMethod, Call)
    case 0x74 => Fixed("castclass", 1, 1, InlineType, Next)
    case 0x75 => Fixed("isinst", 1, 1, InlineType, Next)
    case 0x76 => Fixed("conv.r.un", 1, 1, InlineNone, Next)
    case 0x77 => Fixed("unused", 0, 0, InlineNone, Next)
    case 0x78 => Fixed("unused", 0, 0, InlineNone, Next)
    case 0x79 => Fixed("unbox", 1, 1, InlineType, Next)
    case 0x7A => Fixed("throw", 1, 0, InlineNone, Throw)
    case 0x7B => Fixed("ldfld", 1, 1, InlineField, Next)
    case 0x7C => Fixed("ldflda", 1, 1, InlineField, Next)
    case 0x7D => Fixed("stfld", 2, 0, InlineField, Next)
    case 0x7E => Fixed("ldsfld", 0, 1, InlineField, Next)
    case 0x7F => Fixed("ldsflda", 0, 1, InlineField, Next)
    case _ => Fixed("", 0, 0, InlineNone, Next)
  }

  function Rows080(op: nat): Row {
    match op
    case 0x80 => Fixed("stsfld", 1, 0, InlineField, Next)
    case 0x81 => Fixed("stobj", 2, 0, InlineType, Next)
    case 0x82 => Fixed("conv.ovf.i1.un", 1, 1, InlineNone, Next)
    case 0x83 => Fixed("conv.ovf.i2.un", 1, 1, InlineNone, Next)
    case 0x84 => Fixed("conv.ovf.i4.un", 1, 1, InlineNone, Next)
    case 0x85 => Fixed("conv.ovf.i8.un", 1, 1, InlineNone, Next)
    case 0x86 => Fixed("conv.ovf.u1.un", 1, 1, InlineNone, Next)
    case 0x87 => Fixed("conv.ovf.u2.un", 1, 1, InlineNone, Next)
    case 0x88 => Fixed("conv.ovf.u4.un", 1, 1, InlineNone, Next)
    case 0x89 => Fixed("conv.ovf.u8.un", 1, 1, InlineNone, Next)
    case 0x8A => Fixed("conv.ovf.i.un", 1, 1, InlineNone, Next)
    case 0x8B => Fixed("conv.ovf.u.un", 1, 1, InlineNone, Next)
    case 0x8C => Fixed("box", 1, 1, InlineType, Next)
    case 0x8D => Fixed("newarr", 1, 1, InlineType, Next)
    case 0x8E => Fixed("ldlen", 1, 1, InlineNone, Next)
    case 0x8F => Fixed("ldelema", 2, 1, InlineType, Next)
    case _ => Fixed("", 0, 0, InlineNone, Next)
  }

  function Rows090(op: nat): Row {
    match op
    case 0x90 => Fixed("ldelem.i1", 2, 1, InlineNone, Next)
    case 0x91 => Fixed("ldelem.u1", 2, 1, InlineNone, Next)
    case 0x92 => Fixed("ldelem.i2", 2, 1, InlineNone, Next)
    case 0x93 => Fixed("ldelem.u2", 2, 1, InlineNone, Next)
    case 0x94 => Fixed("ldelem.i4", 2, 1, InlineNone, Next)
    case 0x95 => Fixed("ldelem.u4", 2, 1, InlineNone, Next)
    case 0x96 => Fixed("ldelem.i8", 2, 1, InlineNone, Next)
    case 0x97 => Fixed("ldelem.i", 2, 1, InlineNone, Next)
    case 0x98 => Fixed("ldelem.r4", 2, 1, InlineNone, Next)
    case 0x99 => Fixed("ldelem.r8", 2, 1, InlineNone, Next)
    case 0x9A => Fixed("ldelem.ref", 2, 1, InlineNone, Next)
    case 0x9B => Fixed("stelem.i", 3, 0, InlineNone, Next)
    case 0x9C => Fixed("stelem.i1", 3, 0, InlineNone, Next)
    case 0x9D => Fixed("stelem.i2", 3, 0, InlineNone, Next)
    case 0x9E => Fixed("stelem.i4", 3, 0, InlineNone, Next)
    case 0x9F => Fixed("stelem.i8", 3, 0, InlineNone, Next)
    case _ => Fixed("", 0, 0, InlineNone, Next)
  }

  function Rows0A0(op: nat): Row {
    match op
    case 0xA0 => Fixed("stelem.r4", 3, 0, InlineNone, Next)
    case 0xA1 => Fixed("stelem.r8", 3, 0, InlineNone, Next)
    case 0xA2 => Fixed("stelem.ref", 3, 0, InlineNone, Next)
    case 0xA3 => Fixed("ldelem", 2, 1, InlineType, Next)
    case 0xA4 => Fixed("stelem", 3, 0, InlineType, Next)
    case 0xA5 => Fixed("unbox.any", 1, 1, InlineType, Next)
    case 0xA6 => Fixed("unused", 0, 0, InlineNone, Next)
    case 0xA7 => Fixed("unused", 0, 0, InlineNone, Next)
    case 0xA8 => Fixed("unused", 0, 0, InlineNone, Next)
    case 0xA9 => Fixed("unused", 0, 0, InlineNone, Next)
    case 0xAA => Fixed("unused", 0, 0, InlineNone, Next)
    case 0xAB => Fixed("unused", 0, 0, InlineNone, Next)
    case 0xAC => Fixed("unused", 0, 0, InlineNone, Next)
    case 0xAD => Fixed("unused", 0, 0, InlineNone, Next)
    case 0xAE => Fixed("unused", 0, 0, InlineNone, Next)
    case 0xAF => Fixed("unused", 0, 0, InlineNone, Next)
    case _ => Fixed("", 0, 0, InlineNone, Next)
  }

  function Rows0B0(op: nat): Row {
    match op
    case 0xB0 => Fixed("unused", 0, 0, InlineNone, Next)
    case 0xB1 => Fixed("unused", 0, 0, InlineNone, Next)
    case 0xB2 => Fixed("unused", 0, 0, InlineNone, Next)
    case 0xB3 => Fixed("conv.ovf.i1", 1, 1, InlineNone, Next)
    case 0xB4 => Fixed("conv.ovf.u1", 1, 1, InlineNone, Next)
    case 0xB5 => Fixed("conv.ovf.i2", 1, 1, InlineNone, Next)
    case 0xB6 => Fixed("conv.ovf.u2", 1, 1, InlineNone, Next)
    case 0xB7 => Fixed("conv.ovf.i4", 1, 1, InlineNone, Next)
    case 0xB8 => Fixed("conv.ovf.u4", 1, 1, InlineNone, Next)
    case 0xB9 => Fixed("conv.ovf.i8", 1, 1, InlineNone, Next)
    case 0xBA => Fixed("conv.ovf.u8", 1, 1, InlineNone, Next)
    case 0xBB => Fixed("unused", 0, 0, InlineNone, Next)
    case 0xBC => Fixed("unused", 0, 0, InlineNone, Next)
    case 0xBD => Fixed("unused", 0, 0, InlineNone, Next)
    case 0xBE => Fixed("unused", 0, 0, InlineNone, Next)
    case 0xBF => Fixed("unused", 0, 0, InlineNone, Next)
    case _ => Fixed("", 0, 0, InlineNone, Next)
  }

  function Rows0C0(op: nat): Row {
    match op
    case 0xC0 => Fixed("unused", 0, 0, InlineNone, Next)
    case 0xC1 => Fixed("unused", 0, 0, InlineNone, Next)
    case 0xC2 => Fixed("refanyval", 1, 1, InlineType, Next)
    case 0xC3 => Fixed("ckfinite", 1, 1, InlineNone, Next)
    case 0xC4 => Fixed("unused", 0, 0, InlineNone, Next)
    case 0xC5 => Fixed("unused", 0, 0, InlineNone, Next)
    case 0xC6 => Fixed("mkrefany", 1, 1, InlineType, Next)
    case 0xC7 => Fixed("unused", 0, 0, InlineNone, Next)
    case 0xC8 => Fixed("unused", 0, 0, InlineNone, Next)
    case 0xC9 => Fixed("unused", 0, 0, InlineNone, Next)
    case 0xCA => Fixed("unused", 0, 0, InlineNone, Next)
    case 0xCB => Fixed("unused", 0, 0, InlineNone, Next)
    case 0xCC => Fixed("unused", 0, 0, InlineNone, Next)
    case 0xCD => Fixed("unused", 0, 0, InlineNone, Next)
    case 0xCE => Fixed("unused", 0, 0, InlineNone, Next)
    case 0xCF => Fixed("unused", 0, 0, InlineNone, Next)
    case _ => Fixed("", 0, 0, InlineNone, Next)
  }

  function Rows0D0(op: nat): Row {
    match op
    case 0xD0 => Fixed("ldtoken", 0, 1, InlineTok, Next)
    case 0xD1 => Fixed("conv.u2", 1, 1, InlineNone, Next)
    case 0xD2 => Fixed("conv.u1", 1, 1, InlineNone, Next)
    case 0xD3 => Fixed("conv.i", 1, 1, InlineNone, Next)
    case 0xD4 => Fixed("conv.ovf.i", 1, 1, InlineNone, Next)
    case 0xD5 => Fixed("conv.ovf.u", 1, 1, InlineNone, Next)
    case 0xD6 => Fixed("add.ovf", 2, 1, InlineNone, Next)
    case 0xD7 => Fixed("add.ovf.un", 2, 1, InlineNone, Next)
    case 0xD8 => Fixed("mul.ovf", 2, 1, InlineNone, Next)
    case 0xD9 => Fixed("mul.ovf.un", 2, 1, InlineNone, Next)
    case 0xDA => Fixed("sub.ovf", 2, 1, InlineNone, Next)
    case 0xDB => Fixed("sub.ovf.un", 2, 1, InlineNone, Next)
    case 0xDC => Fixed("endfinally", 0, 0, InlineNone, Return)
    case 0xDD => Fixed("leave", 0, 0, InlineBrTarget, Branch)
    case 0xDE => Fixed("leave.s", 0, 0, ShortInlineBrTarget, Branch)
    case 0xDF => Fixed("stind.i", 2, 0, InlineNone, Next)
    case _ => Fixed("", 0, 0, InlineNone, Next)
  }

  function Rows0E0(op: nat): Row {
    match op
    case 0xE0 => Fixed("conv.u", 1, 1, InlineNone, Next)
    case 0xE1 => Fixed("unused", 0, 0, InlineNone, Next)
    case 0xE2 => Fixed("unused", 0, 0, InlineNone, Next)
    case 0xE3 => Fixed("unused", 0, 0, InlineNone, Next)
    case 0xE4 => Fixed("unused", 0, 0, InlineNone, Next)
    case 0xE5 => Fixed("unused", 0, 0, InlineNone, Next)
    case 0xE6 => Fixed("unused", 0, 0, InlineNone, Next)
    case 0xE7 => Fixed("unused", 0, 0, InlineNone, Next)
    case 0xE8 => Fixed("unused", 0, 0, InlineNone, Next)
    case 0xE9 => Fixed("unused", 0, 0, InlineNone, Next)
    case 0xEA => Fixed("unused", 0, 0, InlineNone, Next)
    case 0xEB => Fixed("unused", 0, 0, InlineNone, Next)
    case 0xEC => Fixed("unused", 0, 0, InlineNone, Next)
    case 0xED => Fixed("unused", 0, 0, InlineNone, Next)
    case 0xEE => Fixed("unused", 0, 0, InlineNone, Next)
    case 0xEF => Fixed("unused", 0, 0, InlineNone, Next)
    case _ => Fixed("", 0, 0, InlineNone, Next)
  }

  function Rows0F0(op: nat): Row {
    match op
    case 0xF0 => Fixed("unused", 0, 0, InlineNone, Next)
    case 0xF1 => Fixed("unused", 0, 0, InlineNone, Next)
    case 0xF2 => Fixed("unused", 0, 0, InlineNone, Next)
    case 0xF3 => Fixed("unused", 0, 0, InlineNone, Next)
    case 0xF4 => Fixed("unused", 0, 0, InlineNone, Next)
    case 0xF5 => Fixed("unused", 0, 0, InlineNone, Next)
    case 0xF6 => Fixed("unused", 0, 0, InlineNone, Next)
    case 0xF7 => Fixed("unused", 0, 0, InlineNone, Next)
    case 0xF8 => Fixed("prefix7", 0, 0, InlineNone, Meta)
    case 0xF9 => Fixed("prefix6", 0, 0, InlineNone, Meta)
    case 0xFA => Fixed("prefix5", 0, 0, InlineNone, Meta)
    case 0xFB => Fixed("prefix4", 0, 0, InlineNone, Meta)
    case 0xFC => Fixed("prefix3", 0, 0, InlineNone, Meta)
    case 0xFD => Fixed("prefix2", 0, 0, InlineNone, Meta)
    case 0xFE => Fixed("prefix1", 0, 0, InlineNone, Meta)
    case 0xFF => Fixed("prefixref", 0, 0, InlineNone, Meta)
    case _ => Fixed("", 0, 0, InlineNone, Next)
  }

  function Rows100(op: nat): Row {
    match op
    case 0x100 => Fixed("arglist", 0, 1, InlineNone, Next)
    case 0x101 => Fixed("ceq", 2, 1, InlineNone, Next)
    case 0x102 => Fixed("cgt", 2, 1, InlineNone, Next)
    case 0x103 => Fixed("cgt.un", 2, 1, InlineNone, Next)
    case 0x104 => Fixed("clt", 2, 1, InlineNone, Next)
    case 0x105 => Fixed("clt.un", 2, 1, InlineNone, Next)
    case 0x106 => Fixed("ldftn", 0, 1, InlineMethod, Next)
    case 0x107 => Fixed("ldvirtftn", 1, 1, InlineMethod, Next)
    case 0x108 => Fixed("unused", 0, 0, InlineNone, Next)
    case 0x109 => Fixed("ldarg", 0, 1, InlineVar, Next)
    case 0x10A => Fixed("ldarga", 0, 1, InlineVar, Next)
    case 0x10B => Fixed("starg", 1, 0, InlineVar, Next)
    case 0x10C => Fixed("ldloc", 0, 1, InlineVar, Next)
    case 0x10D => Fixed("ldloca", 0, 1, InlineVar, Next)
    case 0x10E => Fixed("stloc", 1, 0, InlineVar, Next)
    case 0x10F => Fixed("localloc", 1, 1, InlineNone, Next)
    case _ => Fixed("", 0, 0, InlineNone, Next)
  }

  function Rows110(op: nat): Row {
    match op
    case 0x110 => Fixed("unused", 0, 0, InlineNone, Next)
    case 0x111 => Fixed("endfilter", 1, 0, InlineNone, Return)
    case 0x112 => Fixed("unaligned.", 0, 0, ShortInlineI, Meta)
    case 0x113 => Fixed("volatile.", 0, 0, InlineNone, Meta)
    case 0x114 => Fixed("tail.", 0, 0, InlineNone, Meta)
    case 0x115 => Fixed("initobj", 1, 0, InlineType, Next)
    case 0x116 => Fixed("constrained.", 0, 0, InlineType, Meta)
    case 0x117 => Fixed("cpblk", 3, 0, InlineNone, Next)
    case 0x118 => Fixed("initblk", 3, 0, InlineNone, Next)
    case 0x119 => Fixed("unused", 0, 0, InlineNone, Next)
    case 0x11A => Fixed("rethrow", 0, 0, InlineNone, Throw)
    case 0x11B => Fixed("unused", 0, 0, InlineNone, Next)
    case 0x11C => Fixed("sizeof", 0, 1, InlineType, Next)
    case 0x11D => Fixed("refanytype", 1, 1, InlineNone, Next)
    case 0x11E => Fixed("readonly.", 0, 0, InlineNone, Meta)
    case 0x11F => Fixed("unused", 0, 0, InlineNone, Next)
    case _ => Fixed("", 0, 0, InlineNone, Next)
  }

  function Rows120(op: nat): Row {
    match op
    case 0x120 => Fixed("unused", 0, 0, InlineNone, Next)
    case 0x121 => Fixed("unused", 0, 0, InlineNone, Next)
    case 0x122 => Fixed("unused", 0, 0, InlineNone, Next)
    case 0x123 => Fixed("illegal", 0, 0, InlineNone, Meta)
    case 0x124 => Fixed("endmac", 0, 0, InlineNone, Meta)
    case 0x125 => Fixed("codelabel", 0, 0, InlineNone, Meta)
    case _ => Fixed("", 0, 0, InlineNone, Next)
  }

  function RowOf(op: nat): Row
    requires op < COUNT
  {
    if op < 0x010 then Rows000(op)
    else if op < 0x020 then Rows010(op)
    else if op < 0x030 then Rows020(op)
    else if op < 0x040 then Rows030(op)
    else if op < 0x050 then Rows040(op)
    else if op < 0x060 then Rows050(op)
    else if op < 0x070 then Rows060(op)
    else if op < 0x080 then Rows070(op)
    else if op < 0x090 then Rows080(op)
    else if op < 0x0A0 then Rows090(op)
    else if op < 0x0B0 then Rows0A0(op)
    else if op < 0x0C0 then Rows0B0(op)
    else if op < 0x0D0 then Rows0C0(op)
    else if op < 0x0E0 then Rows0D0(op)
    else if op < 0x0F0 then Rows0E0(op)
    else if op < 0x100 then Rows0F0(op)
    else if op < 0x110 then Rows100(op)
    else if op < 0x120 then Rows110(op)
    else Rows120(op)
  }
  /** The size of an operand in bytes. */
  function KindSize(kind: Kind): nat {
    match kind
    case InlineNone => 0
    case ShortInlineVar | ShortInlineI | ShortInlineBrTarget => 1
    case InlineVar => 2
    case InlineI8 | InlineR => 8
    case _ => 4
  }

  /** How many values an instruction leaves at most; a call leaves one. The two internal opcodes have no row. */
  function MostPushed(op: nat): nat {
    if op >= COUNT then 0
    else match RowOf(op).pushes
      case Exactly(n) => n
      case Varies => 1
  }

  // ---- the rewriter's tables

  /** Operand size, branch flags and pushes of the rewriter are what the row says. */
  predicate Agrees(op: nat)
    requires op < COUNT
  {
    var kind := RowOf(op).kind;
    && OperandSize(op) == KindSize(kind)
    && (FlagsOf(op).ShortBranch? <==> kind.ShortInlineBrTarget?)
    && (FlagsOf(op).LongBranch? <==> kind.InlineBrTarget?)
    && (FlagsOf(op).SwitchTable? <==> kind.InlineSwitch?)
    && Pushes(op) == MostPushed(op)
  }

  lemma Agrees000(op: nat)
    requires op < 0x10
    ensures Agrees(op)
  {
  }

  lemma Agrees010(op: nat)
    requires 0x10 <= op < 0x20
    ensures Agrees(op)
  {
  }

  lemma Agrees020(op: nat)
    requires 0x20 <= op < 0x30
    ensures Agrees(op)
  {
  }

  lemma Agrees030(op: nat)
    requires 0x30 <= op < 0x40
    ensures Agrees(op)
  {
  }

  lemma Agrees040(op: nat)
    requires 0x40 <= op < 0x50
    ensures Agrees(op)
  {
  }

  lemma Agrees050(op: nat)
    requires 0x50 <= op < 0x60
    ensures Agrees(op)
  {
  }

  lemma Agrees060(op: nat)
    requires 0x60 <= op < 0x70
    ensures Agrees(op)
  {
  }

  lemma Agrees070(op: nat)
    requires 0x70 <= op < 0x80
    ensures Agrees(op)
  {
  }

  lemma Agrees080(op: nat)
    requires 0x80 <= op < 0x90
    ensures Agrees(op)
  {
  }

  lemma Agrees090(op: nat)
    requires 0x90 <= op < 0xA0
    ensures Agrees(op)
  {
  }

  lemma Agrees0A0(op: nat)
    requires 0xA0 <= op < 0xB0
    ensures Agrees(op)
  {
  }

  lemma Agrees0B0(op: nat)
    requires 0xB0 <= op < 0xC0
    ensures Agrees(op)
  {
  }

  lemma Agrees0C0(op: nat)
    requires 0xC0 <= op < 0xD0
    ensures Agrees(op)
  {
  }

  lemma Agrees0D0(op: nat)
    requires 0xD0 <= op < 0xE0
    ensures Agrees(op)
  {
  }

  lemma Agrees0E0(op: nat)
    requires 0xE0 <= op < 0xF0
    ensures Agrees(op)
  {
  }

  lemma Agrees0F0(op: nat)
    requires 0xF0 <= op < 0x100
    ensures Agrees(op)
  {
  }

  lemma Agrees100(op: nat)
    requires 0x100 <= op < 0x110
    ensures Agrees(op)
  {
  }

  lemma Agrees110(op: nat)
    requires 0x110 <= op < 0x120
    ensures Agrees(op)
  {
  }

  lemma Agrees120(op: nat)
    requires 0x120 <= op < COUNT
    ensures Agrees(op)
  {
  }

  /** The whole table. */
  lemma TableAgrees(op: nat)
    requires op < COUNT
    ensures Agrees(op)
  {
    hide Agrees;
    if op < 0x10 {
      Agrees000(op);
    } else if op < 0x20 {
      Agrees010(op);
    } else if op < 0x30 {
      Agrees020(op);
    } else if op < 0x40 {
      Agrees030(op);
    } else if op < 0x50 {
      Agrees040(op);
    } else if op < 0x60 {
      Agrees050(op);
    } else if op < 0x70 {
      Agrees060(op);
    } else if op < 0x80 {
      Agrees070(op);
    } else if op < 0x90 {
      Agrees080(op);
    } else if op < 0xA0 {
      Agrees090(op);
    } else if op < 0xB0 {
      Agrees0A0(op);
    } else if op < 0xC0 {
      Agrees0B0(op);
    } else if op < 0xD0 {
      Agrees0C0(op);
    } else if op < 0xE0 {
      Agrees0D0(op);
    } else if op < 0xF0 {
      Agrees0E0(op);
    } else if op < 0x100 {
      Agrees0F0(op);
    } else if op < 0x110 {
      Agrees100(op);
    } else if op < 0x120 {
      Agrees110(op);
    } else {
      Agrees120(op);
    }
  }

  /** The stack pushes of every opcode, the internal ones included. */
  lemma PushesAreMost(op: nat)
    requires op < TABLE_SIZE
    ensures Pushes(op) == MostPushed(op)
  {
    if op < COUNT {
      TableAgrees(op);
      hide RowOf, Pushes;
    }
  }

  // ---- the numbers used by name

  lemma BasicNames()
    ensures RowOf(NOP).name == "nop" && RowOf(LDNULL).name == "ldnull" && RowOf(DUP).name == "dup"
    ensures RowOf(JMP).name == "jmp" && RowOf(CALL).name == "call" && RowOf(RET).name == "ret"
  {
  }

  lemma BranchNames()
    ensures RowOf(BR_S).name == "br.s" && RowOf(BLT_UN_S).name == "blt.un.s"
    ensures RowOf(BR).name == "br" && RowOf(BLT_UN).name == "blt.un" && RowOf(SWITCH).name == "switch"
    ensures RowOf(ENDFINALLY).name == "endfinally" && RowOf(LEAVE).name == "leave" && RowOf(LEAVE_S).name == "leave.s"
  {
  }

  lemma ObjectNames()
    ensures RowOf(CALLVIRT).name == "callvirt" && RowOf(LDOBJ).name == "ldobj" && RowOf(THROW).name == "throw"
    ensures RowOf(BOX).name == "box" && RowOf(NEWARR).name == "newarr" && RowOf(STELEM_REF).name == "stelem.ref"
  {
  }

  lemma TwoByteNames()
    ensures RowOf(PREFIX7).name == "prefix7" && RowOf(PREFIX2).name == "prefix2" && RowOf(PREFIX1).name == "prefix1"
    ensures RowOf(LDARG).name == "ldarg" && RowOf(LDLOC).name == "ldloc" && RowOf(LDLOCA).name == "ldloca"
    ensures RowOf(STLOC).name == "stloc" && RowOf(ENDFILTER).name == "endfilter" && RowOf(TAILCALL).name == "tail."
    ensures RowOf(RETHROW).name == "rethrow" && COUNT == 0x126 && SWITCH_ARG == 0x127
  {
  }

  lemma VariableNames()
    ensures RowOf(LDARG_0).name == "ldarg.0" && RowOf(LDARG_0 + 3).name == "ldarg.3" && RowOf(LDARG_S).name == "ldarg.s"
    ensures RowOf(LDLOC_0).name == "ldloc.0" && RowOf(LDLOC_0 + 3).name == "ldloc.3" && RowOf(LDLOC_S).name == "ldloc.s"
    ensures RowOf(STLOC_0).name == "stloc.0" && RowOf(STLOC_0 + 3).name == "stloc.3" && RowOf(STLOC_S).name == "stloc.s"
    ensures RowOf(LDLOCA_S).name == "ldloca.s" && RowOf(LDC_I4_M1).name == "ldc.i4.m1"
    ensures RowOf(LDC_I4_0).name == "ldc.i4.0" && RowOf(LDC_I4_0 + 8).name == "ldc.i4.8"
    ensures RowOf(LDC_I4_S).name == "ldc.i4.s" && RowOf(LDC_I4).name == "ldc.i4"
  {
  }

  /** The two differ by the suffix of the name. */
  predicate NamedAlike(op: nat)
    requires IsShort(op)
  {
    LongForm(op) < COUNT && RowOf(op).name == RowOf(LongForm(op)).name + ".s"
  }

  lemma FirstNamedAlike(op: nat)
    requires BR_S <= op < 0x32
    ensures NamedAlike(op)
  {
  }

  lemma LastNamedAlike(op: nat)
    requires 0x32 <= op && IsShort(op)
    ensures NamedAlike(op)
  {
  }

  /** A short branch and its long form differ by the suffix of the name. */
  lemma LongFormNamed(op: nat)
    requires IsShort(op)
    ensures NamedAlike(op)
  {
    hide NamedAlike;
    if op < 0x32 {
      FirstNamedAlike(op);
    } else {
      LastNamedAlike(op);
    }
  }

  /** And take the same values and go on the same way. */
  lemma LongFormFlows(op: nat)
    requires IsShort(op)
    ensures LongForm(op) < COUNT
    ensures RowOf(op).pops == RowOf(LongForm(op)).pops && RowOf(op).flow == RowOf(LongForm(op)).flow
  {
  }
}
