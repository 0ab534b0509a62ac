/** Round trips between the encodings, each with the exact condition under which it holds. */
module UtfLaws {
  import opened Utf

  // ---- one code point

  lemma Digits(x: nat, y: nat)
    requires y < 0x40
    ensures (x * 0x40 + y) / 0x40 == x && (x * 0x40 + y) % 0x40 == y
  {
  }

  lemma Decode8OfEncode2(pt: u32, rest: seq<u8>)
    requires 0x80 <= pt < 0x800
    ensures Decode8(Encode8(pt) + rest) == Point(2, pt)
  {
    var d := Encode8(pt) + rest;
    assert d[0] == 0xC0 + pt / 0x40 && d[1] == 0x80 + pt % 0x40;
  }

  lemma Decode8OfEncode3(pt: u32, rest: seq<u8>)
    requires 0x800 <= pt < 0x1_0000
    ensures Decode8(Encode8(pt) + rest) == Point(3, pt)
  {
    var d := Encode8(pt) + rest;
    var x := pt / 0x40;
    assert d[0] == 0xE0 + x / 0x40 && d[1] == 0x80 + x % 0x40 && d[2] == 0x80 + pt % 0x40;
    assert d[0] % 0x10 == x / 0x40;
    assert (d[0] as int % 0x10) * 0x40 + d[1] % 0x40 == x;
  }

  lemma Decode8OfEncode4(pt: u32, rest: seq<u8>)
    requires 0x1_0000 <= pt < LIMIT
    ensures Decode8(Encode8(pt) + rest) == Point(4, pt)
  {
    var d := Encode8(pt) + rest;
    var x := pt / 0x40;
    var y := x / 0x40;
    assert d[0] == 0xF0 + y / 0x40 && d[1] == 0x80 + y % 0x40 && d[2] == 0x80 + x % 0x40 && d[3] == 0x80 + pt % 0x40;
    assert d[0] % 0x10 == y / 0x40;
    assert (d[0] as int % 0x10) * 0x40 + d[1] % 0x40 == y;
    assert y * 0x40 + d[2] % 0x40 == x;
  }

  /** An encoded code point decodes to itself, whatever follows. */
  lemma Decode8OfEncode(pt: u32, rest: seq<u8>)
    requires pt < LIMIT
    ensures Decode8(Encode8(pt) + rest) == Point(|Encode8(pt)|, pt)
  {
    if pt < 0x80 {
    } else if pt < 0x800 {
      Decode8OfEncode2(pt, rest);
    } else if pt < 0x1_0000 {
      Decode8OfEncode3(pt, rest);
    } else {
      Decode8OfEncode4(pt, rest);
    }
  }

  /** A decoded code point encodes to the bytes it came from: there is one spelling for each. */
  lemma Encode8OfDecode(d: seq<u8>)
    requires d != [] && Decode8(d).Point?
    ensures Encode8(Decode8(d).pt) == d[..Decode8(d).size]
  {
    var b0 := d[0];
    if b0 < 0x80 {
    } else if b0 < 0xE0 {
      Digits(b0 % 0x20, d[1] % 0x40);
    } else if b0 < 0xF0 {
      Encode8OfDecode3(d);
    } else {
      Encode8OfDecode4(d);
    }
  }

  lemma Encode8OfDecode3(d: seq<u8>)
    requires d != [] && Decode8(d).Point? && 0xE0 <= d[0] < 0xF0
    ensures Encode8(Decode8(d).pt) == d[..Decode8(d).size]
  {
    var x: nat := d[0] % 0x10;
    var y: nat := x * 0x40 + d[1] % 0x40;
    Digits(x, d[1] % 0x40);
    Digits(y, d[2] % 0x40);
    var pt := Decode8(d).pt;
    assert pt == y * 0x40 + d[2] % 0x40 && pt / 0x40 == y && y / 0x40 == x;
  }

  lemma Encode8OfDecode4(d: seq<u8>)
    requires d != [] && Decode8(d).Point? && 0xF0 <= d[0]
    ensures Encode8(Decode8(d).pt) == d[..Decode8(d).size]
  {
    var x: nat := d[0] % 0x10;
    var y: nat := x * 0x40 + d[1] % 0x40;
    var z: nat := y * 0x40 + d[2] % 0x40;
    Digits(x, d[1] % 0x40);
    Digits(y, d[2] % 0x40);
    Digits(z, d[3] % 0x40);
    var pt := Decode8(d).pt;
    assert pt == z * 0x40 + d[3] % 0x40 && pt / 0x40 == z && z / 0x40 == y && y / 0x40 == x;
  }

  lemma Decode16OfEncode(pt: u32, rest: seq<u16>)
    requires pt < LIMIT && !IsSurrogate(pt)
    ensures Decode16(Encode16(pt) + rest) == Point(|Encode16(pt)|, pt)
  {
    var d := Encode16(pt) + rest;
    if pt >= 0x1_0000 {
      var x := pt - 0x1_0000;
      assert d[0] == 0xD800 + x / 0x400 && d[1] == 0xDC00 + pt % 0x400;
      assert pt % 0x400 == x % 0x400;
    }
  }

  lemma Encode16OfDecode(d: seq<u16>)
    requires d != [] && Decode16(d).Point?
    ensures Encode16(Decode16(d).pt) == d[..Decode16(d).size]
    ensures !IsSurrogate(Decode16(d).pt)
  {
    if IsHigh(d[0]) {
      var x: nat, y: nat := d[0] - 0xD800, d[1] - 0xDC00;
      assert (x * 0x400 + y) / 0x400 == x && (x * 0x400 + y + 0x1_0000) % 0x400 == y;
    }
  }

  // ---- code points and their encodings

  predicate InRange(pts: seq<u32>) {
    forall i :: 0 <= i < |pts| ==> pts[i] < LIMIT
  }

  predicate NoSurrogates(pts: seq<u32>) {
    forall i :: 0 <= i < |pts| ==> !IsSurrogate(pts[i])
  }

  lemma Split<T>(a: seq<T>, b: seq<T>, c: seq<T>, d: seq<T>)
    requires |a| == |c|
    ensures a + b == c + d <==> a == c && b == d
  {
    if a + b == c + d {
      assert a == (a + b)[..|a|] == (c + d)[..|c|] == c;
      assert b == (a + b)[|a|..] == (c + d)[|c|..] == d;
    }
  }

  lemma {:induction false} Points8InRange(s: seq<u8>)
    ensures InRange(Points8(s))
    decreases |s|
  {
    hide Decode8;
    if s != [] {
      Points8InRange(s[Size(Decode8(s))..]);
    }
  }

  lemma {:induction false} Points16InRange(s: seq<u16>)
    ensures InRange(Points16(s)) && NoSurrogates(Points16(s))
    decreases |s|
  {
    hide Decode16, Encode16;
    if s != [] {
      if Decode16(s).Point? {
        Encode16OfDecode(s);
      }
      Points16InRange(s[Size(Decode16(s))..]);
    }
  }

  lemma {:induction false} Points8OfEncoding(pts: seq<u32>)
    requires InRange(pts)
    ensures Points8(EncodeAll8(pts)) == pts && Check8(EncodeAll8(pts))
  {
    hide Decode8, Encode8;
    if pts != [] {
      var head, tail := Encode8(pts[0]), EncodeAll8(pts[1..]);
      Decode8OfEncode(pts[0], tail);
      assert (head + tail)[|head|..] == tail;
      Points8OfEncoding(pts[1..]);
      assert [pts[0]] + pts[1..] == pts;
    }
  }

  lemma {:induction false} Points16OfEncoding(pts: seq<u32>)
    requires InRange(pts) && NoSurrogates(pts)
    ensures Points16(EncodeAll16(pts)) == pts
  {
    hide Decode16, Encode16;
    if pts != [] {
      var head, tail := Encode16(pts[0]), EncodeAll16(pts[1..]);
      Decode16OfEncode(pts[0], tail);
      assert (head + tail)[|head|..] == tail;
      Points16OfEncoding(pts[1..]);
      assert [pts[0]] + pts[1..] == pts;
    }
  }

  // ---- UTF-8 through UTF-32

  /** The bytes of the replacement character are themselves valid. */
  lemma ReplacementIsValid(d: seq<u8>)
    requires |d| >= 3 && d[..3] == Encode8(REPLACEMENT)
    ensures Decode8(d).Point?
  {
    Decode8OfEncode(REPLACEMENT, d[3..]);
    assert d == Encode8(REPLACEMENT) + d[3..];
  }

  /** to_utf8(to_utf32(s)) gives s back if and only if s is valid. */
  lemma {:induction false} Utf8Utf32RoundTripIff(s: seq<u8>)
    ensures EncodeAll8(Points8(s)) == s <==> Check8(s)
    decreases |s|
  {
    hide Decode8, Encode8;
    if s != [] {
      var r := Decode8(s);
      var tail := s[Size(r)..];
      var pts := Points8(s);
      assert pts[1..] == Points8(tail);
      Utf8Utf32RoundTripIff(tail);
      if r.Point? {
        Encode8OfDecode(s);
        assert s == s[..r.size] + tail;
        Split(Encode8(r.pt), EncodeAll8(Points8(tail)), s[..r.size], tail);
      } else if EncodeAll8(pts) == s {
        assert Encode8(REPLACEMENT) == EncodeAll8(pts)[..|Encode8(REPLACEMENT)|];
        assert |Encode8(REPLACEMENT)| == 3 by { ReplacementSize(); }
        ReplacementIsValid(s);
      }
    }
  }

  lemma ReplacementSize()
    ensures |Encode8(REPLACEMENT)| == 3 && Encode8(REPLACEMENT)[0] == 0xEF && Encode16(REPLACEMENT) == [0xFFFD]
  {
  }

  // ---- UTF-16 through UTF-8

  lemma {:induction false} Utf16PointsRoundTripIff(w: seq<u16>)
    ensures EncodeAll16(Points16(w)) == w <==> Check16(w)
    decreases |w|
  {
    hide Decode16, Encode16;
    if w != [] {
      var r := Decode16(w);
      var tail := w[Size(r)..];
      var pts := Points16(w);
      assert pts[1..] == Points16(tail);
      Utf16PointsRoundTripIff(tail);
      if r.Point? {
        Encode16OfDecode(w);
        assert w == w[..r.size] + tail;
        Split(Encode16(r.pt), EncodeAll16(Points16(tail)), w[..r.size], tail);
      } else if EncodeAll16(pts) == w {
        ReplacementSize();
        assert w[0] == 0xFFFD;
        NotSurrogate(w);
      }
    }
  }

  lemma NotSurrogate(w: seq<u16>)
    requires w != [] && !IsSurrogate(w[0])
    ensures Decode16(w) == Point(1, w[0])
  {
  }

  /** to_utf16(to_utf8(w)) gives w back if and only if w is valid. */
  lemma Utf16Utf8RoundTripIff(w: seq<u16>)
    ensures EncodeAll16(Points8(EncodeAll8(Points16(w)))) == w <==> Check16(w)
  {
    Points16InRange(w);
    Points8OfEncoding(Points16(w));
    Utf16PointsRoundTripIff(w);
  }

  // ---- UTF-8 through UTF-16

  /** The points of a string with a surrogate at the front: the encoded string starts otherwise. */
  lemma SurrogateLost(s: seq<u8>)
    requires s != [] && Decode8(s).Point? && IsSurrogate(Decode8(s).pt)
    ensures EncodeAll8(Points16(EncodeAll16(Points8(s)))) != s
  {
    var pt := Decode8(s).pt;
    var tail := Points8(s[Decode8(s).size..]);
    var u := EncodeAll16(Points8(s));
    assert ([pt] + tail)[1..] == tail;
    assert u[0] == pt;
    var out := Points16(u);
    FirstPoint(u);
    assert EncodeAll8(out)[0] == Encode8(out[0])[0];
    SurrogateByte(s);
  }

  lemma SurrogateByte(s: seq<u8>)
    requires s != [] && Decode8(s).Point? && IsSurrogate(Decode8(s).pt)
    ensures s[0] == 0xED
  {
  }

  /** Decoding from a surrogate on yields a replacement or a supplementary code point. */
  lemma FirstPoint(u: seq<u16>)
    requires u != [] && IsSurrogate(u[0])
    ensures Points16(u) != [] && Encode8(Points16(u)[0])[0] != 0xED
  {
  }

  /** to_utf8(to_utf16(s)) gives s back if and only if s is valid and encodes no surrogates. */
  lemma {:induction false} Utf8Utf16RoundTripIff(s: seq<u8>)
    ensures EncodeAll8(Points16(EncodeAll16(Points8(s)))) == s <==> Check8(s) && NoSurrogates(Points8(s))
    decreases |s|
  {
    hide Decode8, Encode8, Decode16, Encode16;
    if s != [] {
      var r := Decode8(s);
      var pt, tail := Value(r), s[Size(r)..];
      var pts := Points8(s);
      assert pts[1..] == Points8(tail);
      Utf8Utf16RoundTripIff(tail);
      if r.Point? && IsSurrogate(pt) {
        SurrogateLost(s);
        assert !NoSurrogates(pts);
      } else {
        var u := EncodeAll16(Points8(tail));
        assert pt < LIMIT;
        Decode16OfEncode(pt, u);
        assert (Encode16(pt) + u)[|Encode16(pt)|..] == u;
        var out := EncodeAll8(Points16(u));
        assert Points16(EncodeAll16(pts)) == [pt] + Points16(u);
        assert ([pt] + Points16(u))[1..] == Points16(u);
        assert EncodeAll8(Points16(EncodeAll16(pts))) == Encode8(pt) + out;
        if r.Point? {
          Encode8OfDecode(s);
          assert s == s[..r.size] + tail;
          Split(Encode8(pt), out, s[..r.size], tail);
          assert NoSurrogates(pts) <==> NoSurrogates(Points8(tail)) by { SurrogatesBehind(pt, Points8(tail)); }
        } else if Encode8(pt) + out == s {
          ReplacementSize();
          assert s[..3] == Encode8(REPLACEMENT);
          ReplacementIsValid(s);
        }
      }
    }
  }

  lemma SurrogatesBehind(pt: u32, tail: seq<u32>)
    requires !IsSurrogate(pt)
    ensures NoSurrogates([pt] + tail) <==> NoSurrogates(tail)
  {
    if NoSurrogates([pt] + tail) {
      forall i | 0 <= i < |tail| ensures !IsSurrogate(tail[i]) {
        assert ([pt] + tail)[i + 1] == tail[i];
      }
    }
  }

  // ---- UTF-32 through UTF-8 and UTF-16

  lemma {:induction false} Check32Iff(s: seq<u32>)
    ensures Check32(s) <==> InRange(s)
  {
    if s != [] {
      Check32Iff(s[1..]);
      assert forall i :: 0 <= i < |s[1..]| ==> s[1..][i] == s[i + 1];
    }
  }

  /** to_utf32(to_utf8(s)) gives s back if and only if s is valid: out-of-range points come back as replacements. */
  lemma Utf32Utf8RoundTripIff(s: seq<u32>)
    ensures Points8(EncodeAll8(s)) == s <==> Check32(s)
  {
    Check32Iff(s);
    Points8InRange(EncodeAll8(s));
    if InRange(s) {
      Points8OfEncoding(s);
    }
  }

  /**
   Code points encoded as UTF-16 decode to themselves if and only if all are in range and none is a surrogate: a
   high one with a low one behind it comes back as a single point, any other as the replacement.
   */
  lemma PointsUtf16RoundTripIff(s: seq<u32>)
    ensures Points16(EncodeAll16(s)) == s <==> InRange(s) && NoSurrogates(s)
  {
    Points16InRange(EncodeAll16(s));
    if InRange(s) && NoSurrogates(s) {
      Points16OfEncoding(s);
    }
  }
}
