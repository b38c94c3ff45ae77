/** Fixed-width little-endian fields. */
module LittleEndian {
  import opened Bytes

  function Put(n: nat, len: nat): (b: Key)
    ensures |b| == len
  { if len == 0 then [] else [n % 256] + Put(n / 256, len - 1) }

  function Get(b: Key): nat { if b == [] then 0 else b[0] + 256 * Get(b[1..]) }

  function Limit(len: nat): nat { if len == 0 then 1 else 256 * Limit(len - 1) }

  lemma {:induction false} GetPut(n: nat, len: nat)
    requires n < Limit(len)
    ensures Get(Put(n, len)) == n
  {
    if len > 0 {
      GetPut(n / 256, len - 1);
      assert Put(n, len)[1..] == Put(n / 256, len - 1);
    }
  }

  lemma {:induction false} Limits()
    ensures Limit(2) == 0x1_0000 && Limit(4) == 0x1_0000_0000 && Limit(8) == 0x1_0000_0000_0000_0000
  {
    assert Limit(4) == 0x1_0000_0000;
    assert Limit(6) == 65536 * Limit(4);
    assert Limit(8) == 65536 * Limit(6);
  }
}
