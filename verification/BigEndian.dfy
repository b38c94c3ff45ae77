/** Big-endian integers: byte order is numeric order. */
module BigEndian {
  import opened Bytes
  import opened Powers

  function Put(n: nat, len: nat): (b: Key)
    ensures |b| == len
  { if len == 0 then [] else Put(n / 256, len - 1) + [n % 256] }

  function Get(b: Key): nat { if b == [] then 0 else Get(b[..|b|-1]) * 256 + b[|b|-1] }

  lemma {:induction false} GetPut(n: nat, len: nat)
    requires n < Pow2(8 * len)
    ensures Get(Put(n, len)) == n
  {
    if len > 0 {
      Pow2Add(8 * (len - 1), 8);
      assert Pow2(8) == 256;
      GetPut(n / 256, len - 1);
      assert Put(n, len)[..len-1] == Put(n / 256, len - 1);
    }
  }

  lemma {:induction false} PutGet(b: Key)
    ensures Put(Get(b), |b|) == b && Get(b) < Pow2(8 * |b|)
  {
    if b != [] {
      var n := |b| - 1;
      PutGet(b[..n]);
      Pow2Add(8 * n, 8);
      assert Pow2(8) == 256;
      assert b == b[..n] + [b[n]];
    }
  }

  // ---- order ----------------------------------------------------------------------

  lemma {:induction false} LessPrefix(p: Key, a: Key, b: Key)
    ensures Less(p + a, p + b) <==> Less(a, b)
  {
    if p == [] { assert p + a == a && p + b == b; }
    else {
      assert (p + a)[1..] == p[1..] + a && (p + b)[1..] == p[1..] + b;
      LessPrefix(p[1..], a, b);
    }
  }

  /** A difference inside equally long prefixes decides. */
  lemma {:induction false} LessFixed(a: Key, b: Key, x: Key, y: Key)
    requires |a| == |b| && Less(a, b)
    ensures Less(a + x, b + y)
  {
    assert (a + x)[1..] == a[1..] + x && (b + y)[1..] == b[1..] + y;
    if a[0] == b[0] { LessFixed(a[1..], b[1..], x, y); }
  }

  lemma {:induction false} LessSnoc(a: Key, b: Key, c: Byte, d: Byte)
    requires |a| == |b|
    ensures Less(a + [c], b + [d]) <==> Less(a, b) || (a == b && c < d)
  {
    if a != [] {
      assert (a + [c])[1..] == a[1..] + [c] && (b + [d])[1..] == b[1..] + [d];
      LessSnoc(a[1..], b[1..], c, d);
      assert a == [a[0]] + a[1..] && b == [b[0]] + b[1..];
    }
  }

  /** Comparing by the last base-256 digit. */
  lemma {:induction false} Digits(m: nat, n: nat, limit: nat)
    requires m < limit * 256 && n < limit * 256
    ensures m / 256 < limit && n / 256 < limit
    ensures m < n <==> m / 256 < n / 256 || (m / 256 == n / 256 && m % 256 < n % 256)
    ensures m == n <==> m / 256 == n / 256 && m % 256 == n % 256
  {}

  lemma {:induction false} PutOrder(m: nat, n: nat, len: nat)
    requires m < Pow2(8 * len) && n < Pow2(8 * len)
    ensures Less(Put(m, len), Put(n, len)) <==> m < n
    ensures Put(m, len) == Put(n, len) <==> m == n
  {
    GetPut(m, len);
    GetPut(n, len);
    if len > 0 {
      Pow2Add(8 * (len - 1), 8);
      assert Pow2(8) == 256;
      hide Less, Pow2, Get;
      Digits(m, n, Pow2(8 * (len - 1)));
      PutOrder(m / 256, n / 256, len - 1);
      LessSnoc(Put(m / 256, len - 1), Put(n / 256, len - 1), m % 256, n % 256);
    }
  }
}
