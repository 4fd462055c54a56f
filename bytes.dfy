/**
 * Bytes and the network (big-endian) byte order used on the wire.
 *
 * The source converts with htons/htonl before copying an integer into a
 * buffer and with ntohs/ntohl after copying it out; the net effect is that
 * the most significant byte travels first. This module states that layout
 * directly instead of modelling the host's byte order.
 */
module Bytes {

  newtype Byte = x: int | 0 <= x < 0x100

  /** The values of a uint16_t and of a uint32_t. */
  type U16 = x: nat | x < 0x1_0000
  type U32 = x: nat | x < 0x1_0000_0000

  /** `n` zero bytes: what the model yields where the source leaves a destination indeterminate. */
  function Zeros(n: nat): (r: seq<Byte>)
    ensures |r| == n
    ensures forall i :: 0 <= i < n ==> r[i] == 0
  {
    seq(n, _ => 0)
  }

  /** Bitwise exclusive or of two bytes (the DDC/CI checksum operator). */
  function Xor(a: Byte, b: Byte): Byte
  {
    ((a as bv8) ^ (b as bv8)) as Byte
  }

  /** A 16-bit value in network byte order. */
  function Be16(v: U16): (r: seq<Byte>)
    ensures |r| == 2
    ensures r[0] as int * 0x100 + r[1] as int == v
  {
    [(v / 0x100) as Byte, (v % 0x100) as Byte]
  }

  /** The 16-bit value whose network-order bytes are `s`. */
  function FromBe16(s: seq<Byte>): (v: U16)
    requires |s| == 2
    ensures Be16(v) == s
  {
    ShiftIn(s[0] as nat, s[1]);
    s[0] as int * 0x100 + s[1] as int
  }

  /** A 32-bit value in network byte order. */
  function Be32(v: U32): (r: seq<Byte>)
    ensures |r| == 4
    ensures FromBe32(r) == v
  {
    var q1 := v / 0x100;
    var q2 := q1 / 0x100;
    assert v == q1 * 0x100 + v % 0x100;
    assert q1 == q2 * 0x100 + q1 % 0x100;
    assert q2 == q2 / 0x100 * 0x100 + q2 % 0x100;
    [(q2 / 0x100) as Byte, (q2 % 0x100) as Byte, (q1 % 0x100) as Byte, (v % 0x100) as Byte]
  }

  /** The 32-bit value whose network-order bytes are `s`. */
  function FromBe32(s: seq<Byte>): (v: U32)
    requires |s| == 4
  {
    ((s[0] as int * 0x100 + s[1] as int) * 0x100 + s[2] as int) * 0x100 + s[3] as int
  }

  /** Four bytes always decode to a value that encodes back to the same four bytes. */
  lemma FromBe32Inverse(s: seq<Byte>)
    requires |s| == 4
    ensures Be32(FromBe32(s)) == s
  {
    var ab := s[0] as nat * 0x100 + s[1] as nat;
    var abc := ab * 0x100 + s[2] as nat;
    ShiftIn(abc, s[3]);
    ShiftIn(ab, s[2]);
    ShiftIn(s[0] as nat, s[1]);
  }

  /** Appending a low-order byte `d` to `x` can be undone by division and remainder. */
  lemma ShiftIn(x: nat, d: Byte)
    ensures (x * 0x100 + d as int) / 0x100 == x
    ensures (x * 0x100 + d as int) % 0x100 == d as int
  {
  }

  /** A length or count stored in a uint32_t: the source's static_cast keeps the low 32 bits. */
  function Truncate32(n: nat): (v: U32)
    ensures n < 0x1_0000_0000 ==> v == n
  {
    n % 0x1_0000_0000
  }
}
