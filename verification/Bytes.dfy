/** Byte strings under the unsigned lexicographic order of Go's bytes.Compare. */
module Bytes {

  type Byte = n: int | 0 <= n < 256

  type Key = seq<Byte>

  /** bytes.Compare(a, b) < 0. */
  predicate Less(a: Key, b: Key)
    decreases |a|
  {
    b != [] && (a == [] || a[0] < b[0] || (a[0] == b[0] && Less(a[1..], b[1..])))
  }

  predicate LessEq(a: Key, b: Key) { a == b || Less(a, b) }

  predicate SortedKeys(keys: seq<Key>) { forall i, j :: 0 <= i < j < |keys| ==> Less(keys[i], keys[j]) }

  /** bytes.Compare as a sign. */
  function Compare(a: Key, b: Key): (c: int)
    ensures c == -1 || c == 0 || c == 1
    ensures c < 0 <==> Less(a, b)
  {
    if Less(a, b) then -1 else if a == b then 0 else 1
  }

  lemma {:induction false} LessIrreflexive(a: Key)
    ensures !Less(a, a)
  {
    if a != [] { LessIrreflexive(a[1..]); }
  }

  lemma {:induction false} LessTransitive(a: Key, b: Key, c: Key)
    requires Less(a, b) && Less(b, c)
    ensures Less(a, c)
    decreases |a|
  {
    if a != [] && a[0] == b[0] == c[0] { LessTransitive(a[1..], b[1..], c[1..]); }
  }

  lemma {:induction false} LessTotal(a: Key, b: Key)
    ensures a == b || Less(a, b) || Less(b, a)
    decreases |a|
  {
    if a != [] && b != [] && a[0] == b[0] {
      LessTotal(a[1..], b[1..]);
      assert a == [a[0]] + a[1..] && b == [b[0]] + b[1..];
    }
  }

  lemma LessAsymmetric(a: Key, b: Key)
    requires Less(a, b)
    ensures !Less(b, a) && a != b
  {
    LessIrreflexive(a);
    if Less(b, a) { LessTransitive(a, b, a); }
  }

  /** The order laws in quantified form, for proofs that compare many keys. */
  lemma Laws()
    ensures forall a: Key :: !Less(a, a)
    ensures forall a: Key, b: Key :: Less(a, b) ==> !Less(b, a)
    ensures forall a: Key, b: Key, c: Key :: Less(a, b) && Less(b, c) ==> Less(a, c)
    ensures forall a: Key, b: Key :: !Less(a, b) && !Less(b, a) ==> a == b
  {
    forall a: Key ensures !Less(a, a) { LessIrreflexive(a); }
    forall a: Key, b: Key | Less(a, b) ensures !Less(b, a) { LessAsymmetric(a, b); }
    forall a: Key, b: Key, c: Key | Less(a, b) && Less(b, c) ensures Less(a, c) { LessTransitive(a, b, c); }
    forall a: Key, b: Key | !Less(a, b) && !Less(b, a) ensures a == b { LessTotal(a, b); }
  }

  lemma {:induction false} Assoc<T>(a: seq<T>, b: seq<T>, c: seq<T>)
    ensures a + b + c == a + (b + c)
  {}

  /** Equal prefixes of equal length, and what follows. */
  lemma {:induction false} SplitAt(a: Key, b: Key, y: Key, z: Key)
    requires a + y == b + z && |a| == |b|
    ensures a == b && y == z
  {
    assert a == (a + y)[..|a|] && b == (b + z)[..|b|];
    assert y == (a + y)[|a|..] && z == (b + z)[|b|..];
  }

  /** Past the keys with a prefix there are no more of them. */
  lemma {:induction false} PrefixDone(p: Key, s: Key, k: Key, m: Key)
    requires p <= s && LessEq(s, k) && !(p <= k) && LessEq(k, m)
    ensures !(p <= m)
  {
    Laws();
    if p <= m {
      var a, b := s[|p|..], m[|p|..];
      assert s == p + a && m == p + b;
      BetweenPrefix(p, a, b, k);
    }
  }

  lemma {:induction false} BetweenPrefix(p: Key, a: Key, b: Key, k: Key)
    requires LessEq(p + a, k) && LessEq(k, p + b)
    ensures p <= k
  {
    if p != [] {
      assert (p + a)[1..] == p[1..] + a && (p + b)[1..] == p[1..] + b && (p + a)[0] == (p + b)[0] == p[0];
      assert k != [] && k[0] == p[0];
      assert k == [k[0]] + k[1..] && p == [p[0]] + p[1..];
      assert p + a == [p[0]] + (p[1..] + a) && p + b == [p[0]] + (p[1..] + b);
      BetweenPrefix(p[1..], a, b, k[1..]);
    }
  }

  lemma {:induction false} PrefixUnder(p: Key, a: Key, b: Key)
    ensures p + a <= p + b <==> a <= b
  {
    if p + a <= p + b { assert a == (p + a)[|p|..] == (p + b)[..|p + a|][|p|..] == b[..|a|]; }
    if a <= b { assert (p + b)[..|p + a|] == p + b[..|a|]; }
  }

  lemma {:induction false} PrefixTrans(a: Key, b: Key, c: Key)
    requires a <= b <= c
    ensures a <= c
  {}
}
