/** Octet strings and the little-endian integers every MicroNUX wire format is built from. */
module Bytes {

  type byte = n: nat | n < 256

  /** The two-octet form of `n`, taken modulo 2^16 as a C cast would. */
  function Le16(n: nat): (s: seq<byte>)
    ensures |s| == 2
  {
    [n % 0x100, n / 0x100 % 0x100]
  }

  /** The four-octet form of `n`, taken modulo 2^32: low half first. */
  function Le32(n: nat): (s: seq<byte>)
    ensures |s| == 4
  {
    Le16(n % 0x1_0000) + Le16(n / 0x1_0000)
  }

  /** The two-octet number at an offset. */
  function U16(s: seq<byte>, offset: nat): (n: nat)
    requires offset + 2 <= |s|
    ensures n < 0x1_0000
  {
    s[offset] + 0x100 * (s[offset + 1] as nat)
  }

  /** The four-octet number at an offset. */
  function U32(s: seq<byte>, offset: nat): (n: nat)
    requires offset + 4 <= |s|
    ensures n < 0x1_0000_0000
  {
    U16(s, offset) + 0x1_0000 * U16(s, offset + 2)
  }

  function Zeros(n: nat): (s: seq<byte>)
    ensures |s| == n && forall i :: 0 <= i < n ==> s[i] == 0
  {
    seq(n, _ => 0)
  }

  function Pow2(k: nat): (p: nat)
    ensures p >= 1
  {
    if k == 0 then 1 else 2 * Pow2(k - 1)
  }

  lemma MulMono(b: nat, x: int, y: int)
    requires x <= y
    ensures b * x <= b * y
  {
  }

  /** Quotient and remainder are unique. */
  lemma DivMod(low: nat, high: nat, base: nat)
    requires low < base
    ensures (low + base * high) / base == high && (low + base * high) % base == low
  {
    var q := (low + base * high) / base;
    if q < high {
      MulMono(base, q + 1, high);
    } else if q > high {
      MulMono(base, high + 1, q);
    }
  }

  /** Encoding a number that fits loses nothing, wherever the octets are put. */
  lemma Le16ThenU16(n: nat, s: seq<byte>, offset: nat)
    requires n < 0x1_0000 && offset + 2 <= |s|
    requires s[offset] == Le16(n)[0] && s[offset + 1] == Le16(n)[1]
    ensures U16(s, offset) == n
  {
  }

  lemma Le32ThenU32(n: nat, s: seq<byte>, offset: nat)
    requires n < 0x1_0000_0000 && offset + 4 <= |s|
    requires s[offset] == Le32(n)[0] && s[offset + 1] == Le32(n)[1]
    requires s[offset + 2] == Le32(n)[2] && s[offset + 3] == Le32(n)[3]
    ensures U32(s, offset) == n
  {
  }

  /** Decoding loses nothing: the octets are the encoding of their value. */
  lemma U16ThenLe16(s: seq<byte>, offset: nat)
    requires offset + 2 <= |s|
    ensures Le16(U16(s, offset)) == s[offset..offset + 2]
  {
  }

  lemma U32ThenLe32(s: seq<byte>, offset: nat)
    requires offset + 4 <= |s|
    ensures Le32(U32(s, offset)) == s[offset..offset + 4]
  {
    DivMod(U16(s, offset), U16(s, offset + 2), 0x1_0000);
    U16ThenLe16(s, offset);
    U16ThenLe16(s, offset + 2);
    assert s[offset..offset + 4] == s[offset..offset + 2] + s[offset + 2..offset + 4];
  }

  /** `s` with the octets from `offset` replaced by `t`. */
  function Overlay(s: seq<byte>, offset: nat, t: seq<byte>): (r: seq<byte>)
    requires offset + |t| <= |s|
    ensures |r| == |s|
  {
    s[..offset] + t + s[offset + |t|..]
  }
}
