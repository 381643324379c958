/** Bytes and the little-endian fields the sensor's commands and replies are packed with. */
module Bytes {

  type byte = b: int | 0 <= b < 256

  type bytes = seq<byte>

  const U16_SIZE := 0x1_0000
  const U32_SIZE := 0x1_0000_0000

  /** wr16 keeps the low sixteen bits. */
  function U16(n: nat): (s: bytes)
    ensures |s| == 2
  {
    [n % 256, n / 256 % 256]
  }

  /** wr32 keeps the low thirty-two bits. */
  function U32(n: nat): (s: bytes)
    ensures |s| == 4
  {
    [n % 256, n / 256 % 256, n / 0x1_0000 % 256, n / 0x100_0000 % 256]
  }

  function Rd16(s: bytes, at: nat): (n: nat)
    requires at + 2 <= |s|
    ensures n < U16_SIZE
  {
    s[at] + 256 * (s[at + 1] as int)
  }

  function Rd32(s: bytes, at: nat): (n: nat)
    requires at + 4 <= |s|
    ensures n < U32_SIZE
  {
    s[at] + 0x100 * (s[at + 1] as int) + 0x1_0000 * (s[at + 2] as int) + 0x100_0000 * (s[at + 3] as int)
  }

  lemma Rd16OfU16(n: nat)
    ensures Rd16(U16(n), 0) == n % U16_SIZE
  {
  }

  lemma Rd32OfU32(n: nat)
    ensures Rd32(U32(n), 0) == n % U32_SIZE
  {
    var a := n / 0x100;
    var b := a / 0x100;
    var c := b / 0x100;
    assert n / 0x1_0000 == b && n / 0x100_0000 == c;
    assert b % 0x1_0000 == b % 0x100 + 0x100 * (c % 0x100);
    assert a % 0x100_0000 == a % 0x100 + 0x100 * (b % 0x1_0000);
  }

  /** Reading a field out of a larger record. */
  lemma FieldAt16(pre: bytes, n: nat, post: bytes)
    ensures Rd16(pre + U16(n) + post, |pre|) == n % U16_SIZE
  {
    Rd16OfU16(n);
  }

  lemma FieldAt32(pre: bytes, n: nat, post: bytes)
    ensures Rd32(pre + U32(n) + post, |pre|) == n % U32_SIZE
  {
    Rd32OfU32(n);
    var s := pre + U32(n) + post;
    assert forall k :: 0 <= k < 4 ==> s[|pre| + k] == U32(n)[k];
  }

  function Zeros(n: nat): bytes { seq(n, _ => 0) }

  /** memcpy to a place in a buffer, seen from the start of the buffer. */
  method Put(out: array<byte>, at: nat, data: bytes)
    requires at + |data| <= out.Length
    modifies out
    ensures out[..at + |data|] == old(out[..at]) + data
  {
    forall i | 0 <= i < |data| { out[at + i] := data[i]; }
  }

  /** Programming flash can only clear bits. */
  function AndBits(a: nat, b: nat, bits: nat): (r: nat)
    ensures r <= a && r <= b
    decreases bits
  {
    if bits == 0 then 0
    else (if a % 2 == 1 && b % 2 == 1 then 1 else 0) + 2 * AndBits(a / 2, b / 2, bits - 1)
  }

  function And(a: byte, b: byte): byte { AndBits(a, b, 8) }

  const ERASED: byte := 0xff

  /** Erased flash takes any byte as it is. */
  lemma AndErased(b: byte)
    ensures And(ERASED, b) == b
  {
    AndOnes(b, 8, 255);
  }

  lemma {:induction false} AndOnes(b: nat, bits: nat, ones: nat)
    requires ones == Ones(bits) && b <= ones
    ensures AndBits(ones, b, bits) == b
    decreases bits
  {
    if bits > 0 { AndOnes(b / 2, bits - 1, ones / 2); }
  }

  function Ones(bits: nat): nat { if bits == 0 then 0 else 1 + 2 * Ones(bits - 1) }
}
