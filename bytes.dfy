/**
 * Octets and fixed-width little-endian integers: the representation the
 * byte buffer uses for every number it reads or writes.
 */
module Bytes {

  /** One octet of the wire format. */
  type byte = b: int | 0 <= b < 256

  /** 256^n, the number of distinct values of an n-byte word. */
  function Pow256(n: nat): (r: int)
    ensures r > 0
  {
    if n == 0 then 1 else 256 * Pow256(n - 1)
  }

  /**
   * The n low-order bytes of the two's-complement representation of x,
   * least significant first. This is what a fixed-width write of a Go
   * conversion such as `int16(x)` or `uint16(x)` puts on the wire.
   */
  function LE(n: nat, x: int): (r: seq<byte>)
    ensures |r| == n
  {
    if n == 0 then [] else [x % 256] + LE(n - 1, x / 256)
  }

  /** The unsigned value of a little-endian byte string. */
  function FromLE(s: seq<byte>): (r: nat)
    ensures r < Pow256(|s|)
  {
    if s == [] then 0 else s[0] + 256 * FromLE(s[1..])
  }

  /** Reads an n-byte unsigned value u as two's complement. */
  function ToSigned(u: int, n: nat): int {
    if u >= Pow256(n) / 2 then u - Pow256(n) else u
  }

  /**
   * Writing x in n bytes and reading the bytes back as an unsigned number
   * gives x modulo 256^n, for every x a signed or unsigned n-byte word can hold.
   */
  lemma {:induction false} FromLEOfLE(n: nat, x: int)
    requires -Pow256(n) <= x < Pow256(n)
    ensures FromLE(LE(n, x)) == if x >= 0 then x else x + Pow256(n)
  {
    if n > 0 {
      var rest := LE(n - 1, x / 256);
      assert LE(n, x) == [x % 256] + rest;
      assert ([x % 256] + rest)[1..] == rest;
      FromLEOfLE(n - 1, x / 256);
    }
  }

  /** An unsigned n-byte value survives a write and a read. */
  lemma UnsignedRoundTrip(n: nat, x: int)
    requires 0 <= x < Pow256(n)
    ensures FromLE(LE(n, x)) == x
  {
    FromLEOfLE(n, x);
  }

  /** A signed n-byte value survives a write and a two's-complement read. */
  lemma SignedRoundTrip(n: nat, x: int)
    requires n > 0
    requires -(Pow256(n) / 2) <= x < Pow256(n) / 2
    ensures ToSigned(FromLE(LE(n, x)), n) == x
  {
    assert Pow256(n) == 256 * Pow256(n - 1);
    FromLEOfLE(n, x);
  }

  /** Reading any n bytes as two's complement gives a signed n-byte value. */
  lemma ToSignedRange(u: nat, n: nat)
    requires n > 0 && u < Pow256(n)
    ensures -(Pow256(n) / 2) <= ToSigned(u, n) < Pow256(n) / 2
  {
    var h := Pow256(n - 1);
    assert Pow256(n) == 256 * h;
    assert Pow256(n) / 2 == 128 * h;
  }

  /** The byte-string widths the format uses, as plain numbers. */
  lemma Pow256Values()
    ensures Pow256(1) == 0x100 && Pow256(2) == 0x1_0000
    ensures Pow256(4) == 0x1_0000_0000
    ensures Pow256(8) == 0x1_0000_0000_0000_0000
  {
    assert Pow256(2) == 256 * Pow256(1);
    assert Pow256(4) == 256 * 256 * Pow256(2);
    assert Pow256(8) == 256 * 256 * 256 * 256 * Pow256(4);
  }
}
