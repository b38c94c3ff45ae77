/** How heads and version chains are laid out in the keys and values of the engine. */
module VersionKeys {
  import opened Bytes
  import opened BigEndian
  import opened Powers
  import opened Versions

  const HEAD_MAGIC: Byte := 0xA5
  const CHAIN_MARK: Byte := 0x01

  /** Lengths and timestamps fit their fields. */
  predicate Sized(n: Name) { |n.key| < 0x1_0000_0000 }
  predicate Stamp(t: nat) { t < 0x1_0000_0000_0000_0000 }

  // ---- heads ------------------------------------------------------------------------

  datatype Head = Versioned(v: Version) | Legacy(payload: Payload)

  function EncodeHead(v: Version): Key { [HEAD_MAGIC] + Put(v.create, 8) + Put(v.delete, 8) + v.payload }

  function DecodeHead(b: Key): Head {
    if |b| < 17 || b[0] != HEAD_MAGIC then Legacy(b) else Versioned(Version(Get(b[1..9]), Get(b[9..17]), b[17..]))
  }

  lemma {:induction false} HeadRoundTrip(v: Version)
    requires Stamp(v.create) && Stamp(v.delete)
    ensures DecodeHead(EncodeHead(v)) == Versioned(v)
  {
    var b := EncodeHead(v);
    Pow2Bytes();
    GetPut(v.create, 8);
    GetPut(v.delete, 8);
    hide Put, Get, Pow2;
    assert b[1..9] == Put(v.create, 8) && b[9..17] == Put(v.delete, 8) && b[17..] == v.payload;
  }

  // ---- chains -------------------------------------------------------------------------

  function ChainPrefix(n: Name): Key { [CHAIN_MARK, n.ks] + Put(|n.key|, 4) + n.key }

  function ChainKey(n: Name, create: nat): Key { ChainPrefix(n) + Put(create, 8) }

  /** A chain key starts with the prefix of its own name only: the length field tells names apart. */
  lemma {:induction false} PrefixIsName(n: Name, m: Name, create: nat)
    requires Sized(n) && Sized(m)
    ensures ChainPrefix(n) <= ChainKey(m, create) <==> n == m
  {
    var p, k := ChainPrefix(n), ChainKey(m, create);
    if p <= k {
      var a, b := [CHAIN_MARK, n.ks] + Put(|n.key|, 4), [CHAIN_MARK, m.ks] + Put(|m.key|, 4);
      var z := k[|p|..];
      Pow2Bytes();
      PutOrder(|n.key|, |m.key|, 4);
      hide Put, Pow2;
      assert k == p + z;
      Assoc(a, n.key, z);
      Assoc(b, m.key, Put(create, 8));
      SplitAt(a, b, n.key + z, m.key + Put(create, 8));
      SplitAt([CHAIN_MARK, n.ks], [CHAIN_MARK, m.ks], Put(|n.key|, 4), Put(|m.key|, 4));
      SplitAt(n.key, m.key, z, Put(create, 8));
    }
  }

  lemma {:induction false} ChainKeyDistinct(n: Name, c: nat, m: Name, d: nat)
    requires Sized(n) && Sized(m) && Stamp(c) && Stamp(d)
    ensures ChainKey(n, c) == ChainKey(m, d) <==> n == m && c == d
    ensures n == m ==> (Less(ChainKey(n, c), ChainKey(m, d)) <==> c < d)
  {
    Pow2Bytes();
    PutOrder(c, d, 8);
    hide Put, Pow2;
    if ChainKey(n, c) == ChainKey(m, d) {
      assert ChainPrefix(n) <= ChainKey(n, c);
      PrefixIsName(n, m, d);
      SplitAt(ChainPrefix(n), ChainPrefix(m), Put(c, 8), Put(d, 8));
    }
    if n == m { LessPrefix(ChainPrefix(n), Put(c, 8), Put(d, 8)); }
  }

  /** The version keyspace: the oracle record and chain records, in key order. */
  ghost predicate VersionSpace(keys: seq<Key>) {
    && (forall i, j :: 0 <= i < j < |keys| ==> Less(keys[i], keys[j]))
    && (forall k :: k in keys && k != [0] ==> exists n, c :: Sized(n) && Stamp(c) && k == ChainKey(n, c))
  }

  /** loadChain: from the first key at or after the prefix, while keys have the
      prefix and the length of a chain key. */
  method LoadChain(keys: seq<Key>, n: Name) returns (creates: seq<nat>)
    requires VersionSpace(keys) && Sized(n)
    ensures forall i, j :: 0 <= i < j < |creates| ==> creates[i] < creates[j]
    ensures forall c: nat :: Stamp(c) ==> (c in creates <==> ChainKey(n, c) in keys)
  {
    Laws();
    hide Less, ChainKey, ChainPrefix, Put;
    var prefix, lo := ChainPrefix(n), 0;
    while lo < |keys| && Less(keys[lo], prefix)
      invariant lo <= |keys| && forall i :: 0 <= i < lo ==> Less(keys[i], prefix)
    { lo := lo + 1; }
    creates := [];
    var hi := lo;
    while hi < |keys| && prefix <= keys[hi] && |keys[hi]| == |prefix| + 8
      invariant lo <= hi <= |keys| && |creates| == hi - lo
      invariant forall i :: 0 <= i < |creates| ==> Stamp(creates[i]) && keys[lo + i] == ChainKey(n, creates[i])
    {
      ChainAt(keys, n, keys[hi]);
      creates := creates + [Get(keys[hi][|prefix|..])];
      hi := hi + 1;
    }
    forall i, j | 0 <= i < j < |creates| ensures creates[i] < creates[j] {
      assert Less(keys[lo + i], keys[lo + j]);
      ChainKeyDistinct(n, creates[i], n, creates[j]);
    }
    forall c: nat | Stamp(c) ensures c in creates <==> ChainKey(n, c) in keys {
      if c in creates {
        var i :| 0 <= i < |creates| && creates[i] == c;
        assert keys[lo + i] in keys;
      }
      if ChainKey(n, c) in keys {
        var i :| 0 <= i < |keys| && keys[i] == ChainKey(n, c);
        ScanMeets(keys, n, c, i, lo, hi);
        assert keys[lo + (i - lo)] == ChainKey(n, creates[i - lo]);
        ChainKeyDistinct(n, c, n, creates[i - lo]);
      }
    }
  }

  /** A key with the prefix of n is a chain key of n, and its last eight bytes are its timestamp. */
  lemma {:induction false} ChainAt(keys: seq<Key>, n: Name, k: Key)
    requires VersionSpace(keys) && Sized(n) && k in keys && ChainPrefix(n) <= k
    ensures |k| == |ChainPrefix(n)| + 8 && Stamp(Get(k[|ChainPrefix(n)|..]))
      && k == ChainKey(n, Get(k[|ChainPrefix(n)|..]))
  {
    assert k != [0];
    var m, c :| Sized(m) && Stamp(c) && k == ChainKey(m, c);
    PrefixIsName(n, m, c);
    Pow2Bytes();
    GetPut(c, 8);
    hide Put, Get;
    assert k[|ChainPrefix(n)|..] == Put(c, 8);
  }

  /** Every chain key of n lies in the scanned part. */
  lemma {:induction false} ScanMeets(keys: seq<Key>, n: Name, c: nat, i: nat, lo: nat, hi: nat)
    requires VersionSpace(keys) && Sized(n) && Stamp(c) && i < |keys| && keys[i] == ChainKey(n, c) && lo <= hi <= |keys|
    requires forall x :: 0 <= x < lo ==> Less(keys[x], ChainPrefix(n))
    requires lo < |keys| ==> !Less(keys[lo], ChainPrefix(n))
    requires hi < |keys| ==> !(ChainPrefix(n) <= keys[hi]) || |keys[hi]| != |ChainPrefix(n)| + 8
    ensures lo <= i < hi
  {
    var p := ChainPrefix(n);
    Laws();
    PrefixBefore(p, Put(c, 8));
    hide Less, ChainPrefix, Put;
    if hi <= i {
      if p <= keys[hi] { ChainAt(keys, n, keys[hi]); }
      PrefixDone(p, p, keys[hi], keys[i]);
    }
  }

  lemma {:induction false} PrefixBefore(p: Key, x: Key)
    requires x != []
    ensures Less(p, p + x)
  {
    LessPrefix(p, [], x);
    assert p + [] == p;
  }
}
