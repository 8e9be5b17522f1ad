/** Octets, shared by the text and framing models. */
module Bytes {
  type byte = x: int | 0 <= x < 256

  type bytes = seq<byte>

  function Pow2(n: nat): nat {
    if n == 0 then 1 else 2 * Pow2(n - 1)
  }

  /** Exclusive or of the lowest `width` bits, bit by bit. */
  function XorBits(a: nat, b: nat, width: nat): (r: nat)
    ensures r < Pow2(width)
  {
    if width == 0 then 0
    else (if a % 2 == b % 2 then 0 else 1) + 2 * XorBits(a / 2, b / 2, width - 1)
  }

  /** Bitwise exclusive or of two octets. */
  function Xor(a: byte, b: byte): byte {
    OctetWidth();
    XorBits(a, b, 8)
  }

  lemma OctetWidth()
    ensures Pow2(8) == 256
  {
  }

  lemma {:induction false} XorBitsTwice(a: nat, k: nat, width: nat)
    requires a < Pow2(width)
    ensures XorBits(XorBits(a, k, width), k, width) == a
  {
    if width > 0 {
      var bit := if a % 2 == k % 2 then 0 else 1;
      var rest := XorBits(a / 2, k / 2, width - 1);
      LowBit(bit, rest);
      XorBitsTwice(a / 2, k / 2, width - 1);
    }
  }

  lemma LowBit(bit: nat, rest: nat)
    requires bit < 2
    ensures (bit + 2 * rest) % 2 == bit && (bit + 2 * rest) / 2 == rest
  {
  }

  /** Masking with one key twice gives back the octet. */
  lemma XorTwice(a: byte, k: byte)
    ensures Xor(Xor(a, k), k) == a
  {
    OctetWidth();
    XorBitsTwice(a, k, 8);
  }

  /** Bit `k` of a number, the lowest first. */
  function Bit(a: nat, k: nat): nat {
    if k == 0 then a % 2 else Bit(a / 2, k - 1)
  }

  lemma {:induction false} XorBitsAt(a: nat, b: nat, width: nat, k: nat)
    requires k < width
    ensures Bit(XorBits(a, b, width), k) == (Bit(a, k) + Bit(b, k)) % 2
  {
    var bit := if a % 2 == b % 2 then 0 else 1;
    LowBit(bit, XorBits(a / 2, b / 2, width - 1));
    if k > 0 {
      XorBitsAt(a / 2, b / 2, width - 1, k - 1);
    }
  }

  /** Each bit of the result is the exclusive or of the two bits. */
  lemma XorIsBitwise(a: byte, b: byte, k: nat)
    requires k < 8
    ensures Bit(Xor(a, b), k) == (Bit(a, k) + Bit(b, k)) % 2
  {
    OctetWidth();
    XorBitsAt(a, b, 8, k);
  }
}
