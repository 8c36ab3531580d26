/** Byte strings and the little-endian integers of Python's `struct` module. */
module Bytes {

  type byte = b: int | 0 <= b < 256

  type bytes = seq<byte>

  const U16_MAX: nat := 0xFFFF
  const U32_MAX: nat := 0xFFFF_FFFF
  const U64_MAX: nat := 0xFFFF_FFFF_FFFF_FFFF

  function Pow256(k: nat): (p: nat)
    ensures 0 < p
  {
    if k == 0 then 1 else 256 * Pow256(k - 1)
  }

  lemma PowConstants()
    ensures Pow256(1) == 0x100 && Pow256(2) == U16_MAX + 1 && Pow256(4) == U32_MAX + 1 && Pow256(8) == U64_MAX + 1
  {
    assert Pow256(2) == 256 * Pow256(1);
    assert Pow256(4) == 256 * 256 * Pow256(2);
    assert Pow256(6) == 256 * 256 * Pow256(4);
    assert Pow256(8) == 256 * 256 * Pow256(6);
  }

  /** The low `k` bytes of `n`, least significant first. */
  function LE(n: nat, k: nat): (s: bytes)
    ensures |s| == k
  {
    if k == 0 then [] else [n % 256] + LE(n / 256, k - 1)
  }

  function FromLE(s: bytes): nat {
    if s == [] then 0 else s[0] + 256 * FromLE(s[1..])
  }

  lemma {:induction false} FromLEOfLE(n: nat, k: nat)
    requires n < Pow256(k)
    ensures FromLE(LE(n, k)) == n
  {
    if k > 0 {
      FromLEOfLE(n / 256, k - 1);
      assert LE(n, k)[1..] == LE(n / 256, k - 1);
    }
  }

  lemma {:induction false} LEOfFromLE(s: bytes)
    ensures FromLE(s) < Pow256(|s|)
    ensures LE(FromLE(s), |s|) == s
  {
    if s != [] {
      LEOfFromLE(s[1..]);
    }
  }

  /** `struct.pack("<i", v)`: four bytes, two's complement. */
  function LEInt32(v: int): (s: bytes)
    requires -0x8000_0000 <= v < 0x8000_0000
    ensures |s| == 4
  {
    LE(if v < 0 then v + 0x1_0000_0000 else v, 4)
  }

  function FromLEInt32(s: bytes): (v: int)
    requires |s| == 4
    ensures -0x8000_0000 <= v < 0x8000_0000
  {
    LEOfFromLE(s);
    PowConstants();
    var n := FromLE(s);
    if n >= 0x8000_0000 then n - 0x1_0000_0000 else n
  }

  lemma Int32RoundTrip(v: int, s: bytes)
    requires -0x8000_0000 <= v < 0x8000_0000 && |s| == 4
    ensures FromLEInt32(LEInt32(v)) == v
    ensures LEInt32(FromLEInt32(s)) == s
  {
    PowConstants();
    FromLEOfLE(if v < 0 then v + 0x1_0000_0000 else v, 4);
    LEOfFromLE(s);
  }

  function Reverse(s: bytes): (r: bytes)
    ensures |r| == |s|
  {
    seq(|s|, i requires 0 <= i < |s| => s[|s| - 1 - i])
  }

  lemma ReverseTwice(s: bytes)
    ensures Reverse(Reverse(s)) == s
  {
  }
}
