/** Bytes, fixed-width unsigned arithmetic and the byte orders both programs use. */
module Bytes {
  type byte = x: int | 0 <= x < 256
  type u32 = x: int | 0 <= x < 0x1_0000_0000
  type u64 = x: int | 0 <= x < 0x1_0000_0000_0000_0000

  const TWO32: int := 0x1_0000_0000

  /** Reduction modulo 2^32, what C does to a uint32_t result. */
  function Wrap32(x: int): u32 { x % TWO32 }

  /** Sums and differences of uint32_t values. */
  function Add32(x: u32, y: u32): u32 { if x + y < TWO32 then x + y else x + y - TWO32 }

  function Sub32(x: u32, y: u32): u32 { if x >= y then x - y else x - y + TWO32 }

  /** Reduction modulo 2^8, what C does to a uint8_t result. */
  function Wrap8(x: int): byte { x % 256 }

  function Pow256(n: nat): nat { if n == 0 then 1 else 0x100 * Pow256(n - 1) }

  lemma Pow256Words()
    ensures Pow256(2) == 0x1_0000 && Pow256(4) == TWO32 && Pow256(8) == TWO32 * TWO32
  {
  }

  /** The value of a little-endian number. */
  function LeValue(t: seq<byte>): (n: nat)
    ensures n < Pow256(|t|)
  {
    if t == [] then 0 else t[0] + 0x100 * LeValue(t[1..])
  }

  /** A number in little-endian order. */
  function LeBytes(x: nat, n: nat): (s: seq<byte>)
    requires x < Pow256(n)
    ensures |s| == n && LeValue(s) == x
  {
    if n == 0 then []
    else
      var rest := LeBytes(x / 0x100, n - 1);
      assert ([x % 0x100] + rest)[1..] == rest;
      [x % 0x100] + rest
  }

  function Word(x: u32): (s: seq<byte>)
    ensures |s| == 4 && LeValue(s) == x
  {
    Pow256Words();
    LeBytes(x, 4)
  }

  function Le16(s: seq<byte>, i: nat): nat
    requires i + 2 <= |s|
  {
    LeValue(s[i..i + 2])
  }

  function Le32(s: seq<byte>, i: nat): u32
    requires i + 4 <= |s|
  {
    Pow256Words();
    LeValue(s[i..i + 4])
  }

  function Le64(s: seq<byte>, i: nat): u64
    requires i + 8 <= |s|
  {
    Pow256Words();
    LeValue(s[i..i + 8])
  }

  lemma SliceOfSlice(s: seq<byte>, from: nat, count: nat, i: nat, j: nat)
    requires from + count <= |s| && i <= j <= count
    ensures s[from..from + count][i..j] == s[from + i..from + j]
  {
    var t, u := s[from..from + count][i..j], s[from + i..from + j];
    assert forall k :: 0 <= k < |u| ==> t[k] == u[k];
  }

  lemma Le32OfSlice(s: seq<byte>, from: nat, count: nat, i: nat)
    requires from + count <= |s| && i + 4 <= count
    ensures Le32(s[from..from + count], i) == Le32(s, from + i)
  {
    SliceOfSlice(s, from, count, i, i + 4);
  }

  lemma Le64OfSlice(s: seq<byte>, from: nat, count: nat, i: nat)
    requires from + count <= |s| && i + 8 <= count
    ensures Le64(s[from..from + count], i) == Le64(s, from + i)
  {
    SliceOfSlice(s, from, count, i, i + 8);
  }

  function Be16(s: seq<byte>, i: nat): nat
    requires i + 2 <= |s|
  {
    var a: int, b: int := s[i], s[i + 1];
    0x100 * a + b
  }

  function Be16Bytes(x: nat): (s: seq<byte>)
    requires x < 0x1_0000
  {
    [x / 256, x % 256]
  }

  function Zeros(n: nat): seq<byte> { seq(n, _ => 0) }
}
