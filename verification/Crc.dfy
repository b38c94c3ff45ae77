/** The CRC-32C checksum over words of bits, least significant bit first. */
module Crc {
  import opened Bytes
  import opened Powers

  type Bits = seq<bool>

  function ToBits(n: nat, len: nat): (b: Bits)
    ensures |b| == len
  { if len == 0 then [] else [n % 2 == 1] + ToBits(n / 2, len - 1) }

  function FromBits(b: Bits): nat { if b == [] then 0 else (if b[0] then 1 else 0) + 2 * FromBits(b[1..]) }

  lemma {:induction false} FromBitsBound(b: Bits)
    ensures FromBits(b) < Pow2(|b|)
  { if b != [] { FromBitsBound(b[1..]); } }

  function Xor(a: Bits, b: Bits): (c: Bits)
    requires |a| == |b|
    ensures |c| == |a|
  { seq(|a|, i requires 0 <= i < |a| => a[i] != b[i]) }

  /** n steps of division by the Castagnoli polynomial. */
  function Divide(c: Bits, n: nat): (d: Bits)
    requires |c| == 32
    ensures |d| == 32
    decreases n
  {
    if n == 0 then c
    else
      var shifted := c[1..] + [false];
      Divide(if c[0] then Xor(shifted, ToBits(0x82F6_3B78, 32)) else shifted, n - 1)
  }

  function Update(c: Bits, b: Key): (d: Bits)
    requires |c| == 32
    ensures |d| == 32
    decreases |b|
  { if b == [] then c else Update(Divide(Xor(c, ToBits(b[0], 32)), 8), b[1..]) }

  function Checksum(b: Key): (n: nat)
    ensures n < 0x1_0000_0000
  {
    var c := Xor(Update(ToBits(0xFFFF_FFFF, 32), b), ToBits(0xFFFF_FFFF, 32));
    FromBitsBound(c);
    Pow2Bytes();
    FromBits(c)
  }
}
