/**
 The encodings against their standards: the byte sequences of RFC 3629, the surrogate pairs of RFC 2781, and that UTF-8
 keeps the order of code points.
 */
module UtfForm {
  import opened Utf

  predicate Tail(d: seq<u8>, k: nat) {
    k < |d| && 0x80 <= d[k] <= 0xBF
  }

  predicate TailWithin(d: seq<u8>, low: u8, high: u8) {
    1 < |d| && low <= d[1] <= high
  }

  /**
   How many bytes the character a string starts with takes, by the syntax in section 4 of RFC 3629, zero if it starts
   with none. Encoded surrogates, which that syntax leaves out, are let in.
   */
  function FormSize(d: seq<u8>): nat
    requires d != []
  {
    if d[0] <= 0x7F then 1
    else if 0xC2 <= d[0] <= 0xDF && Tail(d, 1) then 2
    else if d[0] == 0xE0 && TailWithin(d, 0xA0, 0xBF) && Tail(d, 2) then 3
    else if 0xE1 <= d[0] <= 0xEF && Tail(d, 1) && Tail(d, 2) then 3
    else if d[0] == 0xF0 && TailWithin(d, 0x90, 0xBF) && Tail(d, 2) && Tail(d, 3) then 4
    else if 0xF1 <= d[0] <= 0xF3 && Tail(d, 1) && Tail(d, 2) && Tail(d, 3) then 4
    else if d[0] == 0xF4 && TailWithin(d, 0x80, 0x8F) && Tail(d, 2) && Tail(d, 3) then 4
    else 0
  }

  /** Decoding succeeds exactly on the byte sequences of the standard, and takes all of one. */
  lemma Decode8Iff(d: seq<u8>)
    requires d != []
    ensures Decode8(d).Point? <==> FormSize(d) > 0
    ensures Decode8(d).Point? ==> Decode8(d).size == FormSize(d)
  {
    if d[0] < 0xE0 {
    } else if d[0] < 0xF0 {
      ThreeIff(d);
    } else {
      FourIff(d);
    }
  }

  lemma ThreeIff(d: seq<u8>)
    requires d != [] && 0xE0 <= d[0] < 0xF0
    ensures Decode8(d).Point? <==> FormSize(d) > 0
    ensures Decode8(d).Point? ==> Decode8(d).size == FormSize(d)
  {
  }

  lemma FourIff(d: seq<u8>)
    requires d != [] && 0xF0 <= d[0]
    ensures Decode8(d).Point? <==> FormSize(d) > 0
    ensures Decode8(d).Point? ==> Decode8(d).size == FormSize(d)
  {
  }

  // ---- order

  /** Before in the order of dictionaries. */
  predicate Before(a: seq<int>, b: seq<int>) {
    b != [] && (a == [] || a[0] < b[0] || (a[0] == b[0] && Before(a[1..], b[1..])))
  }

  lemma TailsBefore(a: seq<int>, b: seq<int>, x: int, y: int)
    ensures Before([x] + a, [y] + b) <==> x < y || (x == y && Before(a, b))
  {
    assert ([x] + a)[1..] == a && ([y] + b)[1..] == b;
  }

  lemma LastBefore(x: int, y: int)
    ensures Before([x], [y]) <==> x < y
  {
    assert [x][1..] == [] && [y][1..] == [];
    assert !Before([], []);
  }

  lemma PairBefore(x: int, x1: int, y: int, y1: int)
    ensures Before([x, x1], [y, y1]) <==> x < y || (x == y && x1 < y1)
  {
    assert [x, x1] == [x] + [x1] && [y, y1] == [y] + [y1];
    TailsBefore([x1], [y1], x, y);
    LastBefore(x1, y1);
  }

  lemma TripleBefore(x: int, x1: int, x2: int, y: int, y1: int, y2: int)
    ensures Before([x, x1, x2], [y, y1, y2]) <==> x < y || (x == y && (x1 < y1 || (x1 == y1 && x2 < y2)))
  {
    assert [x, x1, x2] == [x] + [x1, x2] && [y, y1, y2] == [y] + [y1, y2];
    TailsBefore([x1, x2], [y1, y2], x, y);
    PairBefore(x1, x2, y1, y2);
  }

  lemma DigitsOrdered(x: nat, y: nat)
    requires x < y
    ensures x / 0x40 < y / 0x40 || (x / 0x40 == y / 0x40 && x % 0x40 < y % 0x40)
  {
  }

  lemma LongerBefore(x: u32, y: u32)
    requires x < y < 0x11_0000
    ensures |Encode8(x)| <= |Encode8(y)|
    ensures |Encode8(x)| < |Encode8(y)| ==> Before(Encode8(x), Encode8(y))
  {
  }

  lemma ThreeBefore(x: u32, y: u32)
    requires 0x800 <= x < y < 0x1_0000
    ensures Before(Encode8(x), Encode8(y))
  {
    hide Before;
    DigitsOrdered(x, y);
    if x / 0x40 < y / 0x40 {
      DigitsOrdered(x / 0x40, y / 0x40);
    }
    TripleBefore(0xE0 + x / 0x40 / 0x40, 0x80 + x / 0x40 % 0x40, 0x80 + x % 0x40, 0xE0 + y / 0x40 / 0x40,
                 0x80 + y / 0x40 % 0x40, 0x80 + y % 0x40);
  }

  lemma FourBefore(x: u32, y: u32)
    requires 0x1_0000 <= x < y < 0x11_0000
    ensures Before(Encode8(x), Encode8(y))
  {
    var a, b := Encode8(x), Encode8(y);
    hide Before;
    DigitsOrdered(x, y);
    if x / 0x40 < y / 0x40 {
      DigitsOrdered(x / 0x40, y / 0x40);
      if x / 0x40 / 0x40 < y / 0x40 / 0x40 {
        DigitsOrdered(x / 0x40 / 0x40, y / 0x40 / 0x40);
      }
    }
    assert a == [a[0]] + [a[1], a[2], a[3]] && b == [b[0]] + [b[1], b[2], b[3]];
    TailsBefore([a[1], a[2], a[3]], [b[1], b[2], b[3]], a[0], b[0]);
    TripleBefore(a[1], a[2], a[3], b[1], b[2], b[3]);
  }

  /** A code point that is before another is encoded before it. */
  lemma Encode8KeepsOrder(x: u32, y: u32)
    requires x < y < 0x11_0000
    ensures Before(Encode8(x), Encode8(y))
  {
    LongerBefore(x, y);
    if y < 0x80 {
      LastBefore(x, y);
    } else if 0x80 <= x && y < 0x800 {
      DigitsOrdered(x, y);
      PairBefore(0xC0 + x / 0x40, 0x80 + x % 0x40, 0xC0 + y / 0x40, 0x80 + y % 0x40);
    } else if 0x800 <= x && y < 0x1_0000 {
      ThreeBefore(x, y);
    } else if 0x1_0000 <= x {
      FourBefore(x, y);
    }
  }

  // ---- UTF-16

  /** A point beyond 16 bits is a surrogate pair with its offset from 0x10000 in two halves of ten bits. */
  lemma PairSpelled(pt: u32)
    requires 0x1_0000 <= pt < 0x11_0000
    ensures var u: seq<int> := Encode16(pt);
            && |u| == 2 && 0xD800 <= u[0] < 0xDC00 && 0xDC00 <= u[1] < 0xE000
            && pt == 0x1_0000 + (u[0] - 0xD800) * 0x400 + (u[1] - 0xDC00)
  {
    var x := pt - 0x1_0000;
    assert x == x / 0x400 * 0x400 + x % 0x400 && pt % 0x400 == x % 0x400;
  }

  // ---- examples of the standards

  /** Section 7 of RFC 3629: "A", not identical to, Alpha, "."; and a character beyond 16 bits. */
  lemma Examples8()
    ensures Encode8(0x41) == [0x41] && Encode8(0x2262) == [0xE2, 0x89, 0xA2] && Encode8(0x391) == [0xCE, 0x91]
    ensures Encode8(0x2E) == [0x2E] && Encode8(0x2_33B4) == [0xF0, 0xA3, 0x8E, 0xB4]
  {
  }

  /** Section 5 of RFC 2781, and what stands for a point that is none. */
  lemma Examples16()
    ensures Encode16(0x3D) == [0x3D] && Encode16(0x1_2345) == [0xD808, 0xDF45]
    ensures Encode16(0x11_0000) == [0xFFFD] && Encode8(0x11_0000) == Encode8(0xFFFD) && REPLACEMENT == 0xFFFD
  {
  }
}
