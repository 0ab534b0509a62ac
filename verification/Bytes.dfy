/** Bytes and little-endian integers, as the profiler reads and writes them through unaligned pointers. */
module Bytes {

  type byte = b: int | 0 <= b < 256

  const TWO_32: nat := 0x1_0000_0000

  /** 256 to the power n: the number of bit patterns n bytes can hold. */
  function Pow256(n: nat): (p: nat)
    ensures p >= 1
  {
    if n == 0 then 1 else 256 * Pow256(n - 1)
  }

  /** The n-byte little-endian encoding of w. */
  function Le(w: nat, n: nat): (bytes: seq<byte>)
    ensures |bytes| == n
  {
    if n == 0 then [] else [w % 256] + Le(w / 256, n - 1)
  }

  /** The unsigned number a little-endian byte string denotes. */
  function FromLe(bytes: seq<byte>): (w: nat)
    ensures w < Pow256(|bytes|)
  {
    if bytes == [] then 0 else bytes[0] + 256 * FromLe(bytes[1..])
  }

  lemma {:induction false} FromLeOfLe(w: nat, n: nat)
    requires w < Pow256(n)
    ensures FromLe(Le(w, n)) == w
  {
    if n > 0 {
      FromLeOfLe(w / 256, n - 1);
      assert Le(w, n)[1..] == Le(w / 256, n - 1);
    }
  }

  lemma {:induction false} LeOfFromLe(bytes: seq<byte>)
    ensures Le(FromLe(bytes), |bytes|) == bytes
  {
    if bytes != [] {
      LeOfFromLe(bytes[1..]);
      assert FromLe(bytes) % 256 == bytes[0] && FromLe(bytes) / 256 == FromLe(bytes[1..]);
      assert bytes == [bytes[0]] + bytes[1..];
    }
  }

  lemma Pow256Values()
    ensures Pow256(0) == 1 && Pow256(1) == 256 && Pow256(2) == 0x1_0000 && Pow256(4) == TWO_32
    ensures Pow256(8) == TWO_32 * TWO_32
  {
    assert Pow256(1) == 256 * Pow256(0);
    assert Pow256(2) == 256 * Pow256(1);
    assert Pow256(3) == 256 * Pow256(2);
    assert Pow256(4) == 256 * Pow256(3);
    assert Pow256(5) == 256 * Pow256(4);
    assert Pow256(6) == 256 * Pow256(5);
    assert Pow256(7) == 256 * Pow256(6);
    assert Pow256(8) == 256 * Pow256(7);
  }

  /** The value of a byte read as INT8. */
  function Signed8(b: byte): (s: int)
    ensures -128 <= s <= 127 && s % 256 == b
  {
    if b < 128 then b else b - 256
  }

  /** Stores bytes into a buffer. */
  method Put(buffer: array<byte>, at: nat, bytes: seq<byte>)
    requires at + |bytes| <= buffer.Length
    modifies buffer
    ensures buffer[at..at + |bytes|] == bytes
    ensures buffer[..at] == old(buffer[..at]) && buffer[at + |bytes|..] == old(buffer[at + |bytes|..])
  {
    for i := 0 to |bytes|
      invariant buffer[at..at + i] == bytes[..i]
      invariant buffer[..at] == old(buffer[..at]) && buffer[at + |bytes|..] == old(buffer[at + |bytes|..])
    {
      buffer[at + i] := bytes[i];
    }
  }
}
