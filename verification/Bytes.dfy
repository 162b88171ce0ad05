/**
 Byte-level encodings: little-endian 32-bit fields, and the unsigned and signed LEB128 numbers
 of section 7.6 of DWARF Version 4.
 */
module Bytes {
  import opened Options

  type Byte = x: int | 0 <= x < 256

  const TWO32 := 0x1_0000_0000

  /** The low 32 bits of v, least significant byte first. */
  function LE32(v: int): (r: seq<Byte>)
    ensures |r| == 4
  {
    var u := v % TWO32;
    [u % 256, u / 256 % 256, u / 256 / 256 % 256, u / 256 / 256 / 256]
  }

  function U32(b: seq<Byte>, at: nat): nat
    requires at + 4 <= |b|
  {
    (b[at] as int) + 256 * (b[at + 1] as int) + 0x1_0000 * (b[at + 2] as int) + 0x100_0000 * (b[at + 3] as int)
  }

  function S32(b: seq<Byte>, at: nat): int
    requires at + 4 <= |b|
  {
    if U32(b, at) >= 0x8000_0000 then U32(b, at) - TWO32 else U32(b, at)
  }

  lemma LE32RoundTrip(v: int)
    ensures U32(LE32(v), 0) == v % TWO32
    ensures -0x8000_0000 <= v < 0x8000_0000 ==> S32(LE32(v), 0) == v
  {
  }

  /** Reading a field only looks at its own four bytes. */
  lemma U32Slice(b: seq<Byte>, at: nat)
    requires at + 4 <= |b|
    ensures U32(b, at) == U32(b[at..at + 4], 0) && S32(b, at) == S32(b[at..at + 4], 0)
  {
  }

  function ULEB(n: nat): (r: seq<Byte>)
    ensures |r| >= 1
  {
    if n >= 128 then [n % 128 + 128] + ULEB(n / 128) else [n]
  }

  /** The decoded number and the bytes that follow it. */
  function DecodeULEB(b: seq<Byte>): (r: Option<(nat, seq<Byte>)>)
    ensures r.Some? ==> |r.value.1| < |b|
  {
    if b == [] then None
    else if b[0] < 128 then Some((b[0], b[1..]))
    else
      match DecodeULEB(b[1..])
      case None => None
      case Some((n, rest)) => Some((b[0] - 128 + 128 * n, rest))
  }

  function DecodeSLEB(b: seq<Byte>): (r: Option<(int, seq<Byte>)>)
    ensures r.Some? ==> |r.value.1| < |b|
  {
    if b == [] then None
    else if b[0] < 128 then Some((if b[0] >= 64 then (b[0] as int) - 128 else b[0] as int, b[1..]))
    else
      match DecodeSLEB(b[1..])
      case None => None
      case Some((n, rest)) => Some((b[0] - 128 + 128 * n, rest))
  }

  lemma {:induction false} ULEBRoundTrip(n: nat, rest: seq<Byte>)
    ensures DecodeULEB(ULEB(n) + rest) == Some((n, rest))
  {
    if n >= 128 {
      ULEBRoundTrip(n / 128, rest);
      assert (ULEB(n) + rest)[1..] == ULEB(n / 128) + rest;
    } else {
      assert (ULEB(n) + rest)[1..] == rest;
    }
  }

  function Pow128(k: nat): nat {
    if k == 0 then 1 else 128 * Pow128(k - 1)
  }

  lemma {:induction false} ULEBSize(n: nat, k: nat)
    requires k >= 1 && n < Pow128(k)
    ensures |ULEB(n)| <= k
  {
    if n >= 128 {
      assert n / 128 < Pow128(k - 1);
      ULEBSize(n / 128, k - 1);
    }
  }

  lemma Int64Fits()
    ensures Pow128(9) == 0x8000_0000_0000_0000
  {
    assert Pow128(3) == 0x20_0000;
    assert Pow128(6) == 0x400_0000_0000;
  }

  /** The encoder's loop. */
  method AppendULEB(b: seq<Byte>, n: nat) returns (r: seq<Byte>)
    ensures r == b + ULEB(n)
  {
    r := b;
    var m := n;
    while m >= 128
      invariant r + ULEB(m) == b + ULEB(n)
    {
      r := r + [m % 128 + 128];
      m := m / 128;
    }
    r := r + [m];
  }
}
