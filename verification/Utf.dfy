/** UTF-8, UTF-16 and UTF-32 (RFC 3629 section 3, RFC 2781 section 2), with replacement of invalid code units. */
module Utf {

  type u8 = x: int | 0 <= x < 0x100
  type u16 = x: int | 0 <= x < 0x1_0000
  type u32 = x: int | 0 <= x < 0x1_0000_0000

  const REPLACEMENT: u32 := 0xFFFD
  const LIMIT: u32 := 0x11_0000

  predicate IsSurrogate(pt: int) {
    0xD800 <= pt < 0xE000
  }

  // ---- encoding one code point

  function Encode8(pt: u32): (bytes: seq<u8>)
    ensures 1 <= |bytes| <= 4
  {
    if pt < 0x80 then [pt]
    else if pt < 0x800 then [0xC0 + pt / 0x40, 0x80 + pt % 0x40]
    else if pt < 0x1_0000 then [0xE0 + pt / 0x40 / 0x40, 0x80 + pt / 0x40 % 0x40, 0x80 + pt % 0x40]
    else if pt < LIMIT then
      [0xF0 + pt / 0x40 / 0x40 / 0x40, 0x80 + pt / 0x40 / 0x40 % 0x40, 0x80 + pt / 0x40 % 0x40, 0x80 + pt % 0x40]
    else [0xEF, 0xBF, 0xBD]
  }

  function Encode16(pt: u32): (units: seq<u16>)
    ensures 1 <= |units| <= 2
  {
    if pt < 0x1_0000 then [pt]
    else if pt < LIMIT then [0xD800 + (pt - 0x1_0000) / 0x400, 0xDC00 + pt % 0x400]
    else [0xFFFD]
  }

  // ---- decoding one code point at the front of what is left

  datatype Decoded = Invalid | Point(size: nat, pt: u32)

  /** A code unit of a string, or the terminator right behind it; looking further is not possible. */
  function Unit8(d: seq<u8>, k: nat): u8
    requires k <= |d|
  {
    if k < |d| then d[k] else 0
  }

  function Unit16(d: seq<u16>, k: nat): u16
    requires k <= |d|
  {
    if k < |d| then d[k] else 0
  }

  predicate IsContinuation(b: u8) {
    0x80 <= b < 0xC0
  }

  /** Decoding UTF-8: never looks past the terminator, and a success stays within the string. */
  function Decode8(d: seq<u8>): (r: Decoded)
    requires d != []
    ensures r.Point? ==> 1 <= r.size <= |d| && r.pt < LIMIT
  {
    var b0 := d[0];
    if b0 < 0x80 then Point(1, b0)
    else if b0 < 0xC0 then Invalid
    else if b0 < 0xE0 then
      if !IsContinuation(Unit8(d, 1)) then Invalid
      else
        var pt: u32 := b0 % 0x20 * 0x40 + Unit8(d, 1) % 0x40;
        if pt < 0x80 then Invalid else Point(2, pt)
    else if b0 < 0xF0 then
      if !IsContinuation(Unit8(d, 1)) || !IsContinuation(Unit8(d, 2)) then Invalid
      else
        var pt: u32 := (b0 % 0x10 * 0x40 + Unit8(d, 1) % 0x40) * 0x40 + Unit8(d, 2) % 0x40;
        if pt < 0x800 then Invalid else Point(3, pt)
    else if b0 < 0xF8 then
      if !IsContinuation(Unit8(d, 1)) || !IsContinuation(Unit8(d, 2)) || !IsContinuation(Unit8(d, 3)) then Invalid
      else
        var pt: u32 := ((b0 % 0x10 * 0x40 + Unit8(d, 1) % 0x40) * 0x40 + Unit8(d, 2) % 0x40) * 0x40 + Unit8(d,
                  3) % 0x40;
        if pt < 0x1_0000 || pt >= LIMIT then Invalid else Point(4, pt)
    else Invalid
  }

  predicate IsHigh(c: u16) {
    0xD800 <= c < 0xDC00
  }

  predicate IsLow(c: u16) {
    0xDC00 <= c < 0xE000
  }

  function Decode16(d: seq<u16>): (r: Decoded)
    requires d != []
    ensures r.Point? ==> 1 <= r.size <= |d| && r.pt < LIMIT
  {
    if IsHigh(d[0]) && IsLow(Unit16(d, 1)) then
      Point(2, (d[0] - 0xD800) * 0x400 + (Unit16(d, 1) - 0xDC00) + 0x1_0000)
    else if IsHigh(d[0]) || IsLow(d[0]) then Invalid
    else Point(1, d[0])
  }

  function Decode32(d: seq<u32>): (r: Decoded)
    requires d != []
    ensures r.Point? ==> r.size == 1 && r.pt < LIMIT
  {
    if d[0] < LIMIT then Point(1, d[0]) else Invalid
  }

  /** How many units a decoding step consumes, and what it yields: invalid ones one by one, as replacements. */
  function Size(r: Decoded): nat {
    if r.Invalid? then 1 else r.size
  }

  function Value(r: Decoded): u32 {
    if r.Invalid? then REPLACEMENT else r.pt
  }

  // ---- whole strings

  function Points8(s: seq<u8>): seq<u32>
    decreases |s|
  {
    if s == [] then [] else [Value(Decode8(s))] + Points8(s[Size(Decode8(s))..])
  }

  function Points16(s: seq<u16>): seq<u32>
    decreases |s|
  {
    if s == [] then [] else [Value(Decode16(s))] + Points16(s[Size(Decode16(s))..])
  }

  function EncodeAll8(pts: seq<u32>): seq<u8> {
    if pts == [] then [] else Encode8(pts[0]) + EncodeAll8(pts[1..])
  }

  function EncodeAll16(pts: seq<u32>): seq<u16> {
    if pts == [] then [] else Encode16(pts[0]) + EncodeAll16(pts[1..])
  }

  predicate Check8(s: seq<u8>)
    decreases |s|
  {
    s == [] || (Decode8(s).Point? && Check8(s[Decode8(s).size..]))
  }

  predicate Check16(s: seq<u16>)
    decreases |s|
  {
    s == [] || (Decode16(s).Point? && Check16(s[Decode16(s).size..]))
  }

  predicate Check32(s: seq<u32>)
    decreases |s|
  {
    s == [] || (Decode32(s).Point? && Check32(s[1..]))
  }

  // ---- the loops

  method DecodeNext8(s: seq<u8>, i: nat) returns (pt: u32, next: nat, replaced: bool)
    requires i < |s|
    ensures pt == Value(Decode8(s[i..])) && next == i + Size(Decode8(s[i..])) && i < next <= |s|
    ensures replaced == Decode8(s[i..]).Invalid?
  {
    var r := Decode8(s[i..]);
    if r.Invalid? {
      return REPLACEMENT, i + 1, true;
    } else {
      return r.pt, i + r.size, false;
    }
  }

  method DecodeNext16(s: seq<u16>, i: nat) returns (pt: u32, next: nat, replaced: bool)
    requires i < |s|
    ensures pt == Value(Decode16(s[i..])) && next == i + Size(Decode16(s[i..])) && i < next <= |s|
    ensures replaced == Decode16(s[i..]).Invalid?
  {
    var r := Decode16(s[i..]);
    if r.Invalid? {
      return REPLACEMENT, i + 1, true;
    } else {
      return r.pt, i + r.size, false;
    }
  }

  lemma Rest<T>(s: seq<T>, i: nat, n: nat)
    requires i + n <= |s|
    ensures s[i..][n..] == s[i + n..]
  {
  }

  method Utf8Check(s: seq<u8>) returns (ok: bool)
    ensures ok == Check8(s)
  {
    hide Decode8;
    var i := 0;
    while i < |s|
      invariant 0 <= i <= |s| && Check8(s) == Check8(s[i..])
    {
      var r := Decode8(s[i..]);
      if r.Invalid? {
        return false;
      }
      Rest(s, i, r.size);
      i := i + r.size;
    }
    return true;
  }

  method Utf16Check(s: seq<u16>) returns (ok: bool)
    ensures ok == Check16(s)
  {
    hide Decode16;
    var i := 0;
    while i < |s|
      invariant 0 <= i <= |s| && Check16(s) == Check16(s[i..])
    {
      var r := Decode16(s[i..]);
      if r.Invalid? {
        return false;
      }
      Rest(s, i, r.size);
      i := i + r.size;
    }
    return true;
  }

  method Utf32Check(s: seq<u32>) returns (ok: bool)
    ensures ok == Check32(s)
  {
    var i := 0;
    while i < |s|
      invariant 0 <= i <= |s| && Check32(s) == Check32(s[i..])
    {
      var r := Decode32(s[i..]);
      if r.Invalid? {
        return false;
      }
      Rest(s, i, r.size);
      i := i + r.size;
    }
    return true;
  }

  method ToUtf32(s: seq<u8>) returns (out: seq<u32>)
    ensures out == Points8(s)
  {
    hide Decode8;
    out := [];
    var i := 0;
    while i < |s|
      invariant 0 <= i <= |s| && out + Points8(s[i..]) == Points8(s)
    {
      var pt, next, _ := DecodeNext8(s, i);
      Rest(s, i, next - i);
      assert out + ([pt] + Points8(s[next..])) == out + [pt] + Points8(s[next..]);
      out, i := out + [pt], next;
    }
    assert out + [] == out;
  }

  method ToUtf16(s: seq<u8>) returns (out: seq<u16>)
    ensures out == EncodeAll16(Points8(s))
  {
    hide Decode8, Encode16;
    out := [];
    var i := 0;
    while i < |s|
      invariant 0 <= i <= |s| && out + EncodeAll16(Points8(s[i..])) == EncodeAll16(Points8(s))
    {
      var pt, next, _ := DecodeNext8(s, i);
      Rest(s, i, next - i);
      var tail := Points8(s[next..]);
      assert ([pt] + tail)[1..] == tail;
      assert out + (Encode16(pt) + EncodeAll16(tail)) == out + Encode16(pt) + EncodeAll16(tail);
      out, i := out + Encode16(pt), next;
    }
    assert out + [] == out;
  }

  method ToUtf8(s: seq<u16>) returns (out: seq<u8>)
    ensures out == EncodeAll8(Points16(s))
  {
    hide Decode16, Encode8;
    out := [];
    var i := 0;
    while i < |s|
      invariant 0 <= i <= |s| && out + EncodeAll8(Points16(s[i..])) == EncodeAll8(Points16(s))
    {
      var pt, next, _ := DecodeNext16(s, i);
      Rest(s, i, next - i);
      var tail := Points16(s[next..]);
      assert ([pt] + tail)[1..] == tail;
      assert out + (Encode8(pt) + EncodeAll8(tail)) == out + Encode8(pt) + EncodeAll8(tail);
      out, i := out + Encode8(pt), next;
    }
    assert out + [] == out;
  }

  method ToUtf8From32(s: seq<u32>) returns (out: seq<u8>)
    ensures out == EncodeAll8(s)
  {
    hide Encode8;
    out := [];
    for i := 0 to |s|
      invariant out + EncodeAll8(s[i..]) == EncodeAll8(s)
    {
      Rest(s, i, 1);
      assert out + (Encode8(s[i]) + EncodeAll8(s[i + 1..])) == out + Encode8(s[i]) + EncodeAll8(s[i + 1..]);
      out := out + Encode8(s[i]);
    }
    assert out + [] == out;
  }
}
