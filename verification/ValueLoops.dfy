/** The loops behind the order and the encoding of values. */
module ValueLoops {
  import opened Bytes
  import opened Float64
  import opened Values
  import opened ValueDecode

  /** cmpBytes. */
  method CompareBytes(a: Key, b: Key) returns (c: int)
    ensures c == Compare(a, b)
  {
    var n := if |a| < |b| then |a| else |b|;
    for i := 0 to n
      invariant Less(a, b) <==> Less(a[i..], b[i..])
      invariant a[..i] == b[..i]
    {
      assert a[i..][1..] == a[i+1..] && b[i..][1..] == b[i+1..];
      if a[i] < b[i] { return -1; }
      if a[i] > b[i] { return 1; }
    }
    assert |a| == |b| ==> a == a[..n] && b == b[..n];
    c := Cmp(|a|, |b|);
  }

  /** compareLists. */
  method CompareListsLoop(a: seq<Value>, b: seq<Value>) returns (c: int)
    ensures c == CompareLists(a, b)
  {
    hide CompareValues;
    var n := if |a| < |b| then |a| else |b|;
    for i := 0 to n
      invariant CompareLists(a, b) == CompareLists(a[i..], b[i..])
    {
      assert a[i..][1..] == a[i+1..] && b[i..][1..] == b[i+1..];
      c := CompareValues(a[i], b[i]);
      if c != 0 { return; }
    }
    c := Cmp(|a|, |b|);
  }

  /** compareMaps. */
  method CompareMapsLoop(a: seq<Entry>, b: seq<Entry>) returns (c: int)
    ensures c == CompareMaps(a, b)
  {
    hide CompareValues, Compare;
    var n := if |a| < |b| then |a| else |b|;
    for i := 0 to n
      invariant CompareMaps(a, b) == CompareMaps(a[i..], b[i..])
    {
      assert a[i..][1..] == a[i+1..] && b[i..][1..] == b[i+1..];
      c := Compare(a[i].key, b[i].key);
      if c != 0 { return; }
      c := CompareValues(a[i].val, b[i].val);
      if c != 0 { return; }
    }
    c := Cmp(|a|, |b|);
  }

  /** comparePaths. */
  method ComparePathsLoop(an: seq<Bits>, ae: seq<Bits>, bn: seq<Bits>, be: seq<Bits>) returns (c: int)
    requires WellFormedPath(an, ae) && WellFormedPath(bn, be)
    ensures c == ComparePaths(an, ae, bn, be)
  {
    var n := if |an| < |bn| then |an| else |bn|;
    for i := 0 to n
      invariant ComparePaths(an, ae, bn, be) == ComparePaths(an[i..], From(ae, i), bn[i..], From(be, i))
    {
      assert an[i..][1..] == an[i+1..] && bn[i..][1..] == bn[i+1..];
      assert Rest(From(ae, i)) == From(ae, i + 1) && Rest(From(be, i)) == From(be, i + 1);
      c := Cmp(an[i], bn[i]);
      if c != 0 { return; }
      var aEdge, bEdge := i < |ae|, i < |be|;
      if aEdge != bEdge { return if aEdge then 1 else -1; }
      if aEdge {
        c := Cmp(ae[i], be[i]);
        if c != 0 { return; }
      }
    }
    c := Cmp(|an|, |bn|);
  }

  function From<T>(s: seq<T>, i: nat): seq<T> { if i <= |s| then s[i..] else [] }

  /** appendEscaped. */
  method AppendEscaped(dst: Key, s: Key) returns (out: Key)
    ensures out == dst + Escape(s)
  {
    out := dst;
    for i := 0 to |s|
      invariant out + Escape(s[i..]) == dst + Escape(s)
    {
      assert s[i..][1..] == s[i+1..];
      var e := if s[i] == 0 then [0, 0xFF] else [s[i]];
      Assoc(out, e, Escape(s[i+1..]));
      out := out + e;
    }
    out := out + [0];
  }

  /** decodeEscaped. */
  method DecodeEscaped(b: Key) returns (r: Unescaped)
    ensures r == Unescape(b)
  {
    var out, rest := [], b;
    while rest != []
      invariant Unescape(b) == Joined(out, Unescape(rest))
      decreases |rest|
    {
      var c := rest[0];
      if c == 0 && !(|rest| > 1 && rest[1] == 0xFF) {
        assert out + [] == out;
        return Unescaped(out, rest[1..]);
      }
      var tail := if c == 0 then rest[2..] else rest[1..];
      JoinedMore(out, c, Unescape(tail));
      out, rest := out + [c], tail;
    }
    r := Truncated;
  }

  function Joined(out: Key, u: Unescaped): Unescaped { if u.Truncated? then u else Unescaped(out + u.s, u.rest) }

  lemma {:induction false} JoinedMore(out: Key, c: Byte, u: Unescaped)
    ensures Joined(out, Prepend(c, u)) == Joined(out + [c], u)
  { if u.Unescaped? { Assoc(out, [c], u.s); } }

  // ---- sorting map entries --------------------------------------------------------------

  predicate Ordered(es: seq<Entry>) { forall i, j :: 0 <= i < j < |es| ==> LessEq(es[i].key, es[j].key) }

  /** The entries of a prefix in order, but for the one at position j, which moves down. */
  predicate Sinking(es: seq<Entry>, j: int) {
    && 0 <= j < |es|
    && (forall x, y :: 0 <= x < y < |es| && x != j && y != j ==> LessEq(es[x].key, es[y].key))
    && (forall y :: j < y < |es| ==> Less(es[j].key, es[y].key))
  }

  /** sortKVs: insertion sort in place. */
  method SortEntries(a: array<Entry>)
    modifies a
    ensures Ordered(a[..]) && multiset(a[..]) == multiset(old(a[..]))
  {
    var i := 1;
    while i < a.Length
      invariant 1 <= i && (i <= a.Length || a.Length == 0)
      invariant a.Length > 0 ==> Ordered(a[..i])
      invariant multiset(a[..]) == multiset(old(a[..]))
    {
      Sink(a, i);
      i := i + 1;
    }
    if a.Length > 0 { assert a[..i] == a[..]; }
  }

  method Sink(a: array<Entry>, i: nat)
    requires i < a.Length && Ordered(a[..i])
    modifies a
    ensures Ordered(a[..i+1]) && multiset(a[..]) == multiset(old(a[..]))
  {
    Laws();
    hide Less;
    var j := i;
    assert a[..i+1] == a[..i] + [a[i]];
    while j > 0 && Less(a[j].key, a[j-1].key)
      invariant 0 <= j <= i && Sinking(a[..i+1], j) && multiset(a[..]) == multiset(old(a[..]))
    {
      Swap(a, j);
      j := j - 1;
    }
  }

  method Swap(a: array<Entry>, j: nat)
    requires 0 < j < a.Length
    modifies a
    ensures a[..] == old(a[..])[j := old(a[j-1])][j-1 := old(a[j])] && multiset(a[..]) == multiset(old(a[..]))
  {
    a[j], a[j-1] := a[j-1], a[j];
    assert a[..] == old(a[..])[j := old(a[j-1])][j-1 := old(a[j])];
  }
}
