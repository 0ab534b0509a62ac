/**
 Element types by name (section II.23.1.16 of ECMA-335) and the classes behind the built-in ones (section I.8.2.2), and
 that the parser's bytes and both printers' texts agree with them.
 */
module ElementTable {
  import opened Bytes
  import opened SignatureTrees
  import opened SignatureNames
  import opened SignaturePrinter

  function ElementName(b: byte): string {
    match b as int
    case 0x00 => "END"
    case 0x01 => "VOID"
    case 0x02 => "BOOLEAN"
    case 0x03 => "CHAR"
    case 0x04 => "I1"
    case 0x05 => "U1"
    case 0x06 => "I2"
    case 0x07 => "U2"
    case 0x08 => "I4"
    case 0x09 => "U4"
    case 0x0A => "I8"
    case 0x0B => "U8"
    case 0x0C => "R4"
    case 0x0D => "R8"
    case 0x0E => "STRING"
    case 0x0F => "PTR"
    case 0x10 => "BYREF"
    case 0x11 => "VALUETYPE"
    case 0x12 => "CLASS"
    case 0x13 => "VAR"
    case 0x14 => "ARRAY"
    case 0x15 => "GENERICINST"
    case 0x16 => "TYPEDBYREF"
    case 0x18 => "I"
    case 0x19 => "U"
    case 0x1B => "FNPTR"
    case 0x1C => "OBJECT"
    case 0x1D => "SZARRAY"
    case 0x1E => "MVAR"
    case 0x1F => "CMOD_REQD"
    case 0x20 => "CMOD_OPT"
    case 0x21 => "INTERNAL"
    case 0x40 => "MODIFIER"
    case 0x41 => "SENTINEL"
    case 0x45 => "PINNED"
    case _ => ""
  }

  /** The class of a built-in type that takes one byte. */
  function BuiltIn(name: string): string {
    if name == "BOOLEAN" then "System.Boolean"
    else if name == "CHAR" then "System.Char"
    else if name == "I1" then "System.SByte"
    else if name == "I2" then "System.Int16"
    else if name == "I4" then "System.Int32"
    else if name == "I8" then "System.Int64"
    else if name == "U1" then "System.Byte"
    else if name == "U2" then "System.UInt16"
    else if name == "U4" then "System.UInt32"
    else if name == "U8" then "System.UInt64"
    else if name == "R4" then "System.Single"
    else if name == "R8" then "System.Double"
    else if name == "I" then "System.IntPtr"
    else if name == "U" then "System.UIntPtr"
    else if name == "STRING" then "System.String"
    else if name == "OBJECT" then "System.Object"
    else ""
  }

  /** The parser's one-byte types are the built-in ones. */
  lemma SimpleIff(b: byte)
    ensures IsSimple(b) <==> BuiltIn(ElementName(b)) != ""
  {
    hide BuiltIn, ElementName;
    if b < 0x10 {
      LowSimpleIff(b);
    } else if b < 0x1A {
      MiddleSimpleIff(b);
    } else {
      HighSimpleIff(b);
    }
  }

  lemma LowSimpleIff(b: byte)
    requires b < 0x10
    ensures IsSimple(b) <==> BuiltIn(ElementName(b)) != ""
  {
  }

  lemma MiddleSimpleIff(b: byte)
    requires 0x10 <= b < 0x1A
    ensures IsSimple(b) <==> BuiltIn(ElementName(b)) != ""
  {
  }

  lemma HighSimpleIff(b: byte)
    requires b >= 0x1A
    ensures IsSimple(b) <==> BuiltIn(ElementName(b)) != ""
  {
  }

  lemma StructuresNamed()
    ensures ElementName(ELEMENT_VALUETYPE) == "VALUETYPE" && ElementName(ELEMENT_CLASS) == "CLASS"
    ensures ElementName(ELEMENT_VAR) == "VAR" && ElementName(ELEMENT_MVAR) == "MVAR"
    ensures ElementName(ELEMENT_GENERICINST) == "GENERICINST" && ElementName(ELEMENT_SZARRAY) == "SZARRAY"
    ensures ElementName(ELEMENT_END) == "END" && ElementName(ELEMENT_VOID) == "VOID"
  {
  }

  lemma PrefixesNamed()
    ensures ElementName(ELEMENT_PTR) == "PTR" && ElementName(ELEMENT_FNPTR) == "FNPTR"
    ensures ElementName(ELEMENT_ARRAY) == "ARRAY" && ElementName(ELEMENT_BYREF) == "BYREF"
    ensures ElementName(ELEMENT_TYPEDBYREF) == "TYPEDBYREF" && ElementName(ELEMENT_SENTINEL) == "SENTINEL"
    ensures ElementName(ELEMENT_CMOD_REQD) == "CMOD_REQD" && ElementName(ELEMENT_CMOD_OPT) == "CMOD_OPT"
  {
  }

  /** The recursive printer names built-in types by their classes. */
  lemma SimpleNamed(b: byte)
    requires IsSimple(b)
    ensures SimpleName(b) == BuiltIn(ElementName(b))
  {
    hide SimpleName, BuiltIn, ElementName;
    if b < 0x09 {
      FirstNamed(b);
    } else {
      LastNamed(b);
    }
  }

  lemma FirstNamed(b: byte)
    requires 0x02 <= b < 0x09
    ensures SimpleName(b) == BuiltIn(ElementName(b))
  {
  }

  lemma LastNamed(b: byte)
    requires IsSimple(b) && b >= 0x09
    ensures SimpleName(b) == BuiltIn(ElementName(b))
  {
  }

  /** The iterative printer does the same, but for characters and native integers. */
  lemma TextIff(b: byte)
    requires IsSimple(b)
    ensures ElementText(b) == BuiltIn(ElementName(b)) <==> ElementName(b) !in {"CHAR", "I", "U"}
  {
    var name := ElementName(b);
    if name == "CHAR" {
      assert ElementText(b)[|BuiltIn(name)|..] == "16";
    } else if name == "I" || name == "U" {
      assert Decimal(b)[0] == '2';
    }
  }

  /** Other bytes are printed as numbers, but for two. */
  lemma OtherTexts(b: byte)
    ensures ElementText(ELEMENT_VOID) == "System.Void" && ElementText(ELEMENT_BYREF) == "ref"
    ensures IsOther(b) && ElementName(b) !in {"VOID", "BYREF"} ==> ElementText(b) == Decimal(b)
  {
    hide Decimal;
  }
}
