/** Declared secondary indexes: which entries a byte scan of the index finds. */
module IndexScan {
  import opened Bytes
  import opened BigEndian
  import opened Powers
  import opened Float64
  import opened Values
  import opened KeyPrefixes

  // ---- entries ----------------------------------------------------------------------------

  const MARKER: Byte := 0xFF

  type IndexId = n: int | 0 <= n < 0x1_0000_0000

  function IdPrefix(id: IndexId): Key { [MARKER] + Put(id, 4) }

  /** Prefix: the key without the entity id. */
  function Prefix(id: IndexId, vals: seq<Value>): Key { IdPrefix(id) + EncodeComposite(vals) }

  /** Encode: one index entry. */
  function EntryKey(id: IndexId, vals: seq<Value>, entity: Bits): Key { Prefix(id, vals) + Put(entity, 8) }

  /** StartsPrefix: a string encoding without its terminator. */
  function StartsPrefix(id: IndexId, s: Key): Key {
    var enc := Encode(Str(s));
    IdPrefix(id) + if enc[|enc|-1] == 0 then enc[..|enc|-1] else enc
  }

  /** x is v, or lies somewhere in the lists and maps of v. */
  ghost predicate Inside(x: Value, v: Value)
    decreases v
  {
    || x == v
    || (v.List? && exists i :: 0 <= i < |v.elems| && Inside(x, v.elems[i]))
    || (v.Map? && exists i :: 0 <= i < |v.entries| && Inside(x, v.entries[i].val))
  }

  /** What an index can hold: at least one value, no null among them, and no path at any depth. */
  ghost predicate Keyable(vals: seq<Value>) {
    && vals != [] && (forall v :: v in vals ==> v != Null)
    && forall v, x :: v in vals && Inside(x, v) ==> !x.Path?
  }

  predicate Storable(v: Value) {
    match v
    case Path(_, _) => false
    case List(vs) => forall i :: 0 <= i < |vs| ==> Storable(vs[i])
    case Map(es) => forall i :: 0 <= i < |es| ==> Storable(es[i].val)
    case _ => true
  }

  predicate Indexable(vals: seq<Value>) {
    vals != [] && forall i :: 0 <= i < |vals| ==> !vals[i].Null? && Storable(vals[i])
  }

  lemma {:induction false} StorableIff(v: Value)
    ensures Storable(v) <==> forall x :: Inside(x, v) ==> !x.Path?
    decreases v
  {
    assert Inside(v, v);
    match v {
      case List(vs) =>
        forall i | 0 <= i < |vs| ensures Storable(vs[i]) <==> forall x :: Inside(x, vs[i]) ==> !x.Path? {
          StorableIff(vs[i]);
        }
        forall i, x | 0 <= i < |vs| && Inside(x, vs[i]) ensures Inside(x, v) {}
      case Map(es) =>
        forall i | 0 <= i < |es| ensures Storable(es[i].val) <==> forall x :: Inside(x, es[i].val) ==> !x.Path? {
          StorableIff(es[i].val);
        }
        forall i, x | 0 <= i < |es| && Inside(x, es[i].val) ensures Inside(x, v) {}
      case _ =>
    }
  }

  /** Indexable tests exactly that. */
  lemma {:induction false} IndexableIff(vals: seq<Value>)
    ensures Indexable(vals) <==> Keyable(vals)
  {
    hide Storable, Inside;
    forall v | v in vals ensures Storable(v) <==> forall x :: Inside(x, v) ==> !x.Path? { StorableIff(v); }
    if Keyable(vals) {
      forall i | 0 <= i < |vals| ensures !vals[i].Null? && Storable(vals[i]) { assert vals[i] in vals; }
    }
  }

  predicate Formed(vals: seq<Value>) { forall i :: 0 <= i < |vals| ==> WellFormed(vals[i]) }

  /** What an index of so many properties stores. */
  ghost predicate Row(arity: nat, vals: seq<Value>) { |vals| == arity && Keyable(vals) && Formed(vals) }

  ghost predicate IsRow(id: IndexId, arity: nat, w: seq<Value>, e: Bits, k: Key) {
    Row(arity, w) && k == EntryKey(id, w, e)
  }

  /** The keyspace, in key order; entries of this index are rows of it. */
  ghost predicate Stores(keys: seq<Key>, id: IndexId, arity: nat) {
    SortedKeys(keys) && forall k :: k in keys && IdPrefix(id) <= k ==> exists w, e :: IsRow(id, arity, w, e, k)
  }

  // ---- what a query asks ------------------------------------------------------------------

  datatype Query =
    | Leading(vals: seq<Value>)
    | Between(lo: seq<Value>, hi: seq<Value>, loInc: bool, hiInc: bool)
    | Starting(s: Key)

  /** Leading values equal to those given. */
  ghost predicate Leads(v: seq<Value>, w: seq<Value>) {
    |v| <= |w| && forall i :: 0 <= i < |v| ==> CompareValues(v[i], w[i]) == 0
  }

  ghost predicate AboveLow(w: seq<Value>, lo: seq<Value>, inc: bool)
    requires |lo| <= |w|
  { lo == [] || CompareLists(w[..|lo|], lo) > 0 || (inc && CompareLists(w[..|lo|], lo) == 0) }

  ghost predicate BelowHigh(w: seq<Value>, hi: seq<Value>, inc: bool)
    requires |hi| <= |w|
  { hi == [] || CompareLists(w[..|hi|], hi) < 0 || (inc && CompareLists(w[..|hi|], hi) == 0) }

  ghost predicate Satisfies(q: Query, w: seq<Value>) {
    match q
    case Leading(v) => Leads(v, w)
    case Between(lo, hi, loInc, hiInc) => |lo| <= |w| && |hi| <= |w| && AboveLow(w, lo, loInc)
      && BelowHigh(w, hi, hiInc)
    case Starting(s) => w != [] && w[0].Str? && s <= w[0].s
  }

  /** An entry of the index that satisfies a query. */
  ghost predicate Matches(id: IndexId, arity: nat, q: Query, k: Key) {
    exists w, e :: IsRow(id, arity, w, e, k) && Satisfies(q, w)
  }

  ghost predicate Fitting(q: Query, arity: nat) {
    match q
    case Leading(v) => Formed(v) && |v| <= arity
    case Between(lo, hi, _, _) => Formed(lo) && Formed(hi) && |lo| <= arity && |hi| <= arity
    case Starting(_) => 0 < arity
  }

  // ---- what a scan tests ------------------------------------------------------------------

  /** The part of a composite that comparePrefix looks at. */
  function Truncated(comp: Key, bound: Key): Key { if |comp| >= |bound| then comp[..|bound|] else comp }

  function ComparePrefix(comp: Key, bound: Key): int { Compare(Truncated(comp, bound), bound) }

  /** The tests of Range on the bytes of a composite. */
  predicate Within(comp: Key, lo: seq<Value>, hi: seq<Value>, loInc: bool, hiInc: bool) {
    var a, b := ComparePrefix(comp, EncodeComposite(lo)), ComparePrefix(comp, EncodeComposite(hi));
    (lo == [] || a > 0 || (a == 0 && loInc)) && (hi == [] || b < 0 || (b == 0 && hiInc))
  }

  predicate Scanned(id: IndexId, q: Query, k: Key) {
    match q
    case Leading(v) => Prefix(id, v) <= k
    case Between(lo, hi, loInc, hiInc) => IdPrefix(id) <= k && |k| >= 13 && Within(k[5..|k|-8], lo, hi, loInc, hiInc)
    case Starting(s) => StartsPrefix(id, s) <= k
  }

  // ---- where the two differ ---------------------------------------------------------------

  /** w agrees with v before the last value of v. */
  ghost predicate LeadBefore(v: seq<Value>, w: seq<Value>)
    requires |v| <= |w|
  { forall i :: 0 <= i < |v| - 1 ==> CompareValues(v[i], w[i]) == 0 }

  /** The row agrees with v before the last value of v and continues that text with a NUL byte. */
  ghost predicate Reaches(v: seq<Value>, w: seq<Value>) {
    v != [] && |v| <= |w| && LeadBefore(v, w) && Extends(v[|v|-1], w[|v|-1])
  }

  /** The bytes of an entry after its first n values. */
  function After(w: seq<Value>, n: nat, e: Bits): Key
    requires n <= |w|
  { EncodeComposite(w[n..]) + Put(e, 8) }

  /** The entity id after the row looks like the rest of the longer text at the end of v. */
  ghost predicate Mimics(v: seq<Value>, w: seq<Value>, e: Bits) {
    v != [] && |v| <= |w| && LeadBefore(v, w) && Completes(v[|v|-1], w[|v|-1], After(w, |v|, e))
  }

  /** The row and its entity id on which the byte tests of a scan go wrong. */
  ghost predicate Wrong(q: Query, w: seq<Value>, e: Bits) {
    match q
    case Leading(v) => Reaches(v, w) || Mimics(v, w, e)
    case Between(lo, hi, loInc, hiInc) =>
      && |lo| <= |w| && |hi| <= |w|
      && (|| (!loInc && Reaches(lo, w) && BelowHigh(w, hi, hiInc))
          || (hiInc && Reaches(hi, w) && AboveLow(w, lo, loInc) && (loInc || !Reaches(lo, w))))
    case Starting(s) =>
      w != [] && w[0].Str? && NulExtends(w[0].s, s) && [0xFF] + Body(s[|w[0].s|+1..]) <= After(w, 1, e)
  }

  ghost predicate Misread(id: IndexId, arity: nat, q: Query, k: Key) {
    exists w, e :: IsRow(id, arity, w, e, k) && Wrong(q, w, e)
  }

  /** A low bound that is included and a high bound that is not never mislead;
      ids below 0xFF00 0000 0000 0000 never complete a text. */
  lemma {:induction false} WhenRight(q: Query, w: seq<Value>, e: Bits)
    ensures q.Between? && (q.lo == [] || q.loInc) && (q.hi == [] || !q.hiInc) ==> !Wrong(q, w, e)
    ensures q.Starting? && (e < 0xFF00_0000_0000_0000 || |w| > 1) ==> !Wrong(q, w, e)
    ensures q.Leading? && (e < 0xFF00_0000_0000_0000 || |q.vals| < |w|) ==> (Wrong(q, w, e) <==> Reaches(q.vals, w))
  {
    hide Wrong;
    if q.Leading? && q.vals != [] && |q.vals| <= |w| && (e < 0xFF00_0000_0000_0000 || |q.vals| < |w|) {
      AfterTail(w, |q.vals|, e);
      CompletesTail(q.vals[|q.vals|-1], w[|q.vals|-1], After(w, |q.vals|, e));
    }
    WhenRightCases(q, w, e);
  }

  lemma {:induction false} WhenRightCases(q: Query, w: seq<Value>, e: Bits)
    ensures q.Between? && (q.lo == [] || q.loInc) && (q.hi == [] || !q.hiInc) ==> !Wrong(q, w, e)
    ensures q.Starting? && (e < 0xFF00_0000_0000_0000 || |w| > 1) ==> !Wrong(q, w, e)
    ensures q.Leading? ==> (Wrong(q, w, e) <==> Reaches(q.vals, w) || Mimics(q.vals, w, e))
  {
    if q.Starting? && w != [] && (e < 0xFF00_0000_0000_0000 || |w| > 1) { AfterTail(w, 1, e); }
  }

  lemma {:induction false} AfterTail(w: seq<Value>, n: nat, e: Bits)
    requires n <= |w| && (n < |w| || e < 0xFF00_0000_0000_0000)
    ensures After(w, n, e) != [] && Tail(After(w, n, e))
  {
    if n < |w| {
      var rest := EncodeComposite(w[n..][1..]);
      assert EncodeComposite(w[n..]) == Encode(w[n]) + rest;
      hide EncodeComposite, Put, Encode;
      Assoc(Encode(w[n]), rest, Put(e, 8));
      EncodeTail(w[n], rest + Put(e, 8));
    } else {
      assert w[n..] == [];
      FirstByte(e);
      hide Put;
      assert [] + Put(e, 8) == Put(e, 8);
    }
  }

  lemma {:induction false} PutHead(n: nat, len: nat)
    requires len > 0 && n < 0xFF * Pow2(8 * (len - 1))
    ensures Put(n, len)[0] < 0xFF
  {
    if len == 1 {
      assert Put(n, 1) == [n % 256];
    } else {
      Pow2Add(8 * (len - 2), 8);
      assert Pow2(8) == 256;
      PutHead(n / 256, len - 1);
      assert Put(n, len)[0] == Put(n / 256, len - 1)[0];
    }
  }

  lemma {:induction false} FirstByte(e: Bits)
    requires e < 0xFF00_0000_0000_0000
    ensures Put(e, 8)[0] < 0xFF
  {
    Pow2Bytes();
    hide Put;
    Pow2Add(56, 8);
    hide Pow2;
    PutHead(e, 8);
  }

  // ---- encodings of leading values --------------------------------------------------------

  lemma {:induction false} CompositeSplit(w: seq<Value>, n: nat)
    requires n <= |w|
    ensures EncodeComposite(w) == EncodeComposite(w[..n]) + EncodeComposite(w[n..])
  {
    if n == 0 {
      assert w[..0] == [] && w[0..] == w;
    } else {
      CompositeSplit(w[1..], n - 1);
      assert w[..n][1..] == w[1..][..n-1] && w[1..][n-1..] == w[n..] && w[..n][0] == w[0];
      hide Encode;
      Assoc(Encode(w[0]), EncodeComposite(w[1..][..n-1]), EncodeComposite(w[n..]));
    }
  }

  lemma {:induction false} EqualLists(v: seq<Value>, w: seq<Value>)
    requires Formed(v) && Formed(w) && |v| == |w|
    ensures CompareLists(v, w) == 0 <==> forall i :: 0 <= i < |v| ==> CompareValues(v[i], w[i]) == 0
  {
    if v != [] {
      EqualLists(v[1..], w[1..]);
      hide CompareValues;
      if forall i :: 0 <= i < |v| ==> CompareValues(v[i], w[i]) == 0 {
        forall i | 0 <= i < |v[1..]| ensures CompareValues(v[1..][i], w[1..][i]) == 0 {
          assert v[1..][i] == v[i+1] && w[1..][i] == w[i+1];
        }
      }
      if CompareLists(v, w) == 0 {
        forall i | 0 <= i < |v| ensures CompareValues(v[i], w[i]) == 0 {
          if i > 0 { assert v[i] == v[1..][i-1] && w[i] == w[1..][i-1]; }
        }
      }
    }
  }

  /** The bytes of an entry after the index id, and the part that a bound of n values meets. */
  lemma {:induction false} EntryParts(id: IndexId, w: seq<Value>, e: Bits, n: nat)
    requires n <= |w|
    ensures EntryKey(id, w, e) == IdPrefix(id) + (EncodeComposite(w[..n]) + (EncodeComposite(w[n..]) + Put(e, 8)))
  {
    CompositeSplit(w, n);
    hide EncodeComposite, Put;
    Assoc(IdPrefix(id), EncodeComposite(w), Put(e, 8));
    Assoc(EncodeComposite(w[..n]), EncodeComposite(w[n..]), Put(e, 8));
  }

  /** The encoding of v starts another composite exactly if the values before its
      last one agree and its last one is a prefix of what follows. */
  lemma {:induction false} CompositePrefix(v: seq<Value>, w: seq<Value>, x: Key)
    requires Formed(v) && Formed(w) && v != [] && |v| <= |w|
    ensures EncodeComposite(v) <= EncodeComposite(w) + x <==>
      LeadBefore(v, w) && Encode(v[|v|-1]) <= Encode(w[|v|-1]) + (EncodeComposite(w[|v|..]) + x)
  {
    var a, p, b, q := Encode(v[0]), EncodeComposite(v[1..]), Encode(w[0]), EncodeComposite(w[1..]) + x;
    assert EncodeComposite(v) == a + p && EncodeComposite(w) == b + EncodeComposite(w[1..]);
    Assoc(b, EncodeComposite(w[1..]), x);
    if |v| == 1 {
      assert v[1..] == [];
      PlusNothing(a);
    } else {
      CompositePrefix(v[1..], w[1..], x);
      assert v[1..][|v|-2] == v[|v|-1] && w[1..][|v|-2] == w[|v|-1] && w[1..][|v|-1..] == w[|v|..];
      LeadStep(v, w);
      StepTail(v[1..], []);
      StepTail(w[1..], x);
      hide EncodeComposite, Encode, LeadBefore, Formed;
      HeadPrefix(v[0], w[0], p, q);
    }
  }

  lemma {:induction false} LeadStep(v: seq<Value>, w: seq<Value>)
    requires 1 < |v| <= |w|
    ensures LeadBefore(v, w) <==> CompareValues(v[0], w[0]) == 0 && LeadBefore(v[1..], w[1..])
  {
    hide CompareValues;
    if LeadBefore(v, w) {
      forall i | 0 <= i < |v[1..]| - 1 ensures CompareValues(v[1..][i], w[1..][i]) == 0 {
        assert v[1..][i] == v[i+1] && w[1..][i] == w[i+1];
      }
    }
    if CompareValues(v[0], w[0]) == 0 && LeadBefore(v[1..], w[1..]) {
      forall i | 0 <= i < |v| - 1 ensures CompareValues(v[i], w[i]) == 0 {
        if i > 0 { assert v[i] == v[1..][i-1] && w[i] == w[1..][i-1]; }
      }
    }
  }

  lemma {:induction false} StepTail(w: seq<Value>, x: Key)
    requires w != []
    ensures EncodeComposite(w) + x != [] && (EncodeComposite(w) + x)[0] < 0xFF
    ensures EncodeComposite(w) != [] && EncodeComposite(w)[0] < 0xFF
  {
    assert EncodeComposite(w)[0] == Tag(w[0]);
  }

  /** A value that is followed by another value is told apart before it ends. */
  lemma {:induction false} HeadPrefix(a: Value, b: Value, p: Key, q: Key)
    requires WellFormed(a) && WellFormed(b) && p != [] && p[0] < 0xFF && q != [] && q[0] < 0xFF
    ensures Encode(a) + p <= Encode(b) + q <==> CompareValues(a, b) == 0 && p <= q
  {
    var m, n := Encode(a), Encode(b);
    hide Encode, CompareValues;
    if m + p <= n + q {
      var z := (n + q)[|m + p|..];
      assert (m + p) + z == n + q;
      Assoc(m, p, z);
      ValuesAgree(a, b, p + z, q);
      LessIrreflexive(n + q);
    }
    if CompareValues(a, b) == 0 {
      ValuesAgree(a, b, [], []);
      PrefixUnder(m, p, q);
    }
  }

  /** An entry starts with the encoding of v exactly when its leading values equal v, or go wrong. */
  lemma {:induction false} LeadingPrefix(id: IndexId, v: seq<Value>, w: seq<Value>, e: Bits)
    requires Formed(v) && Formed(w) && |v| <= |w|
    ensures Prefix(id, v) <= EntryKey(id, w, e) <==> Leads(v, w) || Reaches(v, w) || Mimics(v, w, e)
    ensures !(Leads(v, w) && (Reaches(v, w) || Mimics(v, w, e)))
  {
    Assoc(IdPrefix(id), EncodeComposite(w), Put(e, 8));
    PrefixUnder(IdPrefix(id), EncodeComposite(v), EncodeComposite(w) + Put(e, 8));
    if v != [] {
      var n := |v| - 1;
      CompositePrefix(v, w, Put(e, 8));
      EncodePrefix(v[n], w[n], After(w, |v|, e));
      if Extends(v[n], w[n]) { ExtendsDiffer(v[n], w[n]); }
      if Extends(w[n], v[n]) { ExtendsDiffer(w[n], v[n]); }
      hide EncodeComposite, Encode, Extends, Completes, CompareValues, Put;
      assert Leads(v, w) <==> LeadBefore(v, w) && CompareValues(v[n], w[n]) == 0;
    }
  }

  // ---- bounds -----------------------------------------------------------------------------

  lemma {:induction false} TruncatedLess(u: Key, b: Key)
    requires Less(u, b)
    ensures Less(Truncated(u, b), b)
  {
    if u != [] && u[0] == b[0] {
      TruncatedLess(u[1..], b[1..]);
      assert Truncated(u, b)[1..] == Truncated(u[1..], b[1..]);
    }
  }

  lemma {:induction false} TruncatedMore(u: Key, b: Key)
    requires Less(b, u) && !(b <= u)
    ensures Less(b, Truncated(u, b))
  {
    assert b != [];
    if u[0] == b[0] {
      assert u == [u[0]] + u[1..] && b == [b[0]] + b[1..];
      PrefixUnder([b[0]], b[1..], u[1..]);
      TruncatedMore(u[1..], b[1..]);
      assert Truncated(u, b)[1..] == Truncated(u[1..], b[1..]);
    }
  }

  lemma {:induction false} TruncatedSame(u: Key, b: Key)
    requires b <= u
    ensures Truncated(u, b) == b && ComparePrefix(u, b) == 0
  {
    LessIrreflexive(b);
  }

  /** A difference in the leading values decides the whole rows. */
  lemma {:induction false} LeadDecides(w: seq<Value>, v: seq<Value>)
    requires |v| <= |w|
    ensures CompareLists(w[..|v|], v) != 0 ==> CompareLists(w, v) == CompareLists(w[..|v|], v)
  {
    if v != [] {
      assert w[..|v|][1..] == w[1..][..|v|-1] && w[..|v|][0] == w[0];
      LeadDecides(w[1..], v[1..]);
      hide CompareValues;
    }
  }

  /** comparePrefix has the sign of the order of leading values, except that a
      row which continues the bound with a NUL byte counts as equal to it. */
  lemma {:induction false} BoundCompare(w: seq<Value>, v: seq<Value>)
    requires Formed(w) && Formed(v) && |v| <= |w|
    ensures var c, d := ComparePrefix(EncodeComposite(w), EncodeComposite(v)), CompareLists(w[..|v|], v);
      (c < 0 <==> d < 0) && (c == 0 <==> d == 0 || Reaches(v, w)) && (Reaches(v, w) ==> d > 0)
  {
    var u, b := EncodeComposite(w), EncodeComposite(v);
    LeadDecides(w, v);
    CompositeOrder(w, v);
    BoundPrefix(w, v);
    hide EncodeComposite, CompareLists, Less, Reaches, Formed;
    if CompareLists(w[..|v|], v) < 0 {
      TruncatedLess(u, b);
    } else if b <= u {
      TruncatedSame(u, b);
    } else {
      TruncatedMore(u, b);
      LessAsymmetric(b, Truncated(u, b));
    }
  }

  /** When the bytes of a bound start those of a row. */
  lemma {:induction false} BoundPrefix(w: seq<Value>, v: seq<Value>)
    requires Formed(w) && Formed(v) && |v| <= |w|
    ensures EncodeComposite(v) <= EncodeComposite(w) <==> CompareLists(w[..|v|], v) == 0 || Reaches(v, w)
    ensures Reaches(v, w) ==> CompareLists(w[..|v|], v) > 0
  {
    if v == [] { return; }
    var n := |v| - 1;
    PlusNothing(EncodeComposite(w));
    PlusNothing(EncodeComposite(w[|v|..]));
    CompositePrefix(v, w, []);
    CompositeTail(w[|v|..]);
    EncodePrefix(v[n], w[n], EncodeComposite(w[|v|..]));
    CompletesTail(v[n], w[n], EncodeComposite(w[|v|..]));
    SameLead(v, w);
    if Extends(v[n], w[n]) { ExtendsDiffer(v[n], w[n]); }
    hide EncodeComposite, Encode, Extends, CompareValues, CompareLists;
  }

  /** Lists that agree before their last value compare like their last values. */
  lemma {:induction false} SameLead(v: seq<Value>, w: seq<Value>)
    requires Formed(v) && Formed(w) && v != [] && |v| <= |w|
    ensures LeadBefore(v, w) ==> CompareLists(w[..|v|], v) == CompareValues(w[|v|-1], v[|v|-1])
    ensures CompareValues(v[|v|-1], w[|v|-1]) == 0 <==> CompareValues(w[|v|-1], v[|v|-1]) == 0
    ensures CompareLists(w[..|v|], v) == 0 <==> LeadBefore(v, w) && CompareValues(v[|v|-1], w[|v|-1]) == 0
  {
    CompareIsOrder(v[0], w[0], v[0]);
    CompareIsOrder(w[0], v[0], w[0]);
    assert w[..|v|][0] == w[0] && w[..|v|][1..] == w[1..][..|v|-1];
    if |v| > 1 {
      SameLead(v[1..], w[1..]);
      LeadStep(v, w);
      assert v[1..][|v|-2] == v[|v|-1] && w[1..][|v|-2] == w[|v|-1];
    } else {
      assert w[..|v|][1..] == [] && v[1..] == [];
    }
    hide CompareValues, LeadBefore, Formed;
  }

  lemma {:induction false} LessExtend(b: Key, a: Key, x: Key)
    requires Less(b, a)
    ensures Less(b, a + x)
  {
    if b != [] && b[0] == a[0] {
      assert (a + x)[1..] == a[1..] + x;
      LessExtend(b[1..], a[1..], x);
    }
  }

  /** Entries at or above a low bound come at or after the key where the scan starts. */
  lemma {:induction false} AfterStart(id: IndexId, w: seq<Value>, e: Bits, v: seq<Value>)
    requires Formed(w) && Formed(v) && |v| <= |w| && CompareLists(w[..|v|], v) >= 0
    ensures LessEq(Prefix(id, v), EntryKey(id, w, e))
  {
    var n := |v|;
    var a, b, x := EncodeComposite(w[..n]), EncodeComposite(v), EncodeComposite(w[n..]) + Put(e, 8);
    EntryParts(id, w, e, n);
    assert Formed(w[..n]);
    CompositeOrder(w[..n], v);
    hide EncodeComposite, CompareLists, Formed, Less, Put, EntryKey;
    if a == b { PrefixFirst(b, x); } else { LessExtend(b, a, x); }
    LessPrefix(IdPrefix(id), b, a + x);
  }

  lemma {:induction false} PrefixFirst(b: Key, x: Key)
    ensures LessEq(b, b + x)
  {
    if x == [] { assert b + x == b; }
    else {
      LessPrefix(b, [], x);
      assert b + [] == b;
    }
  }

  // ---- one row ----------------------------------------------------------------------------

  lemma {:induction false} EntryShape(id: IndexId, w: seq<Value>, e: Bits)
    ensures var k := EntryKey(id, w, e);
      |k| >= 13 && IdPrefix(id) <= k && k[5..|k|-8] == EncodeComposite(w) && EntityOf(k) == e
  {
    var k := EntryKey(id, w, e);
    Pow2Bytes();
    GetPut(e, 8);
    hide EncodeComposite, Put, Get;
    assert k[|k|-8..] == Put(e, 8);
    assert k[5..|k|-8] == EncodeComposite(w);
    Assoc(IdPrefix(id), EncodeComposite(w), Put(e, 8));
  }

  lemma {:induction false} OneValue(w: seq<Value>)
    requires w != []
    ensures EncodeComposite(w[..1]) == Encode(w[0])
  {
    assert w[..1][1..] == [] && w[..1][0] == w[0];
    hide Encode;
    assert Encode(w[0]) + [] == Encode(w[0]);
  }

  /** StartsPrefix meets the strings that begin with s, NUL bytes or not, and goes
      wrong only with an entity id that completes the string. */
  lemma {:induction false} StartsPrefixMeets(id: IndexId, s: Key, w: seq<Value>, e: Bits)
    requires Formed(w) && w != []
    ensures StartsPrefix(id, s) <= EntryKey(id, w, e) <==> Satisfies(Starting(s), w) || Wrong(Starting(s), w, e)
    ensures !(Satisfies(Starting(s), w) && Wrong(Starting(s), w, e))
  {
    var p, v, x := IdPrefix(id), w[0], After(w, 1, e);
    StartsBytes(id, s);
    EntryParts(id, w, e, 1);
    OneValue(w);
    hide StartsPrefix, EntryKey, EncodeComposite;
    PrefixUnder(p, [4] + Body(s), Encode(v) + x);
    if v.Str? {
      Assoc([4], Escape(v.s), x);
      PrefixUnder([4], Body(s), Escape(v.s) + x);
      BodyPrefix(s, v.s, x);
    } else {
      assert (Encode(v) + x)[0] == Tag(v) && ([4] + Body(s))[0] == 4;
    }
  }

  lemma {:induction false} StartsBytes(id: IndexId, s: Key)
    ensures StartsPrefix(id, s) == IdPrefix(id) + ([4] + Body(s))
  {
    EscapeBody(s);
    var enc := Encode(Str(s));
    assert Payload(Str(s)) == Escape(s) && Tag(Str(s)) == 4;
    assert enc == [4] + Escape(s);
    hide Escape, Body;
    assert enc[|enc|-1] == Escape(s)[|Escape(s)|-1] && enc[..|enc|-1] == [4] + Escape(s)[..|Escape(s)|-1];
  }

  lemma {:induction false} WithinBounds(w: seq<Value>, q: Query, e: Bits)
    requires q.Between? && Formed(w) && Formed(q.lo) && Formed(q.hi) && |q.lo| <= |w| && |q.hi| <= |w|
    ensures (Within(EncodeComposite(w), q.lo, q.hi, q.loInc, q.hiInc) <==> Satisfies(q, w)) <==> !Wrong(q, w, e)
  {
    BoundCompare(w, q.lo);
    BoundCompare(w, q.hi);
    hide EncodeComposite, CompareLists, ComparePrefix, Formed, Reaches;
  }

  /** On a stored row the byte test is right exactly if the row is not a wrong one. */
  lemma {:induction false} RowExact(id: IndexId, arity: nat, q: Query, w: seq<Value>, e: Bits)
    requires Row(arity, w) && Fitting(q, arity)
    ensures (Scanned(id, q, EntryKey(id, w, e)) <==> Satisfies(q, w)) <==> !Wrong(q, w, e)
  {
    EntryShape(id, w, e);
    hide EncodeComposite, EntryKey, Prefix, StartsPrefix, Within, Keyable;
    match q
    case Leading(v) => LeadingPrefix(id, v, w, e);
    case Between(_, _, _, _) => WithinBounds(w, q, e);
    case Starting(s) => StartsPrefixMeets(id, s, w, e);
  }

  // ---- a key stands for one row, up to equal values ---------------------------------------

  ghost predicate SameRow(w: seq<Value>, w': seq<Value>) {
    |w| == |w'| && forall i :: 0 <= i < |w| ==> Encode(w[i]) == Encode(w'[i])
  }

  lemma {:induction false} RowUnique(id: IndexId, w: seq<Value>, e: Bits, w': seq<Value>, e': Bits)
    requires Formed(w) && Formed(w') && |w| == |w'| && EntryKey(id, w, e) == EntryKey(id, w', e')
    ensures SameRow(w, w')
  {
    EntryShape(id, w, e);
    EntryShape(id, w', e');
    CompositeOrder(w, w');
    EqualLists(w, w');
    LessIrreflexive(EncodeComposite(w));
    hide EncodeComposite, CompareLists, EntryKey, Encode, CompareValues, WellFormed;
    forall i | 0 <= i < |w| ensures Encode(w[i]) == Encode(w'[i]) { KeyOrder(w[i], w'[i]); }
  }

  lemma {:induction false} SameComposite(w: seq<Value>, w': seq<Value>)
    requires SameRow(w, w')
    ensures EncodeComposite(w) == EncodeComposite(w')
  {
    hide Encode;
    if w != [] {
      assert SameRow(w[1..], w'[1..]);
      SameComposite(w[1..], w'[1..]);
    }
  }

  /** Bounds see equal rows alike. */
  lemma {:induction false} SameBound(w: seq<Value>, w': seq<Value>, b: seq<Value>)
    requires SameRow(w, w') && Formed(w) && Formed(w') && Formed(b) && |b| <= |w|
    ensures var c, d := CompareLists(w[..|b|], b), CompareLists(w'[..|b|], b);
      (c < 0 <==> d < 0) && (c == 0 <==> d == 0)
  {
    var u, u' := w[..|b|], w'[..|b|];
    SameComposite(u, u');
    CompositeOrder(u, b);
    CompositeOrder(u', b);
    LessIrreflexive(EncodeComposite(b));
    hide EncodeComposite, CompareLists, Less;
    if Less(EncodeComposite(u), EncodeComposite(b)) { LessAsymmetric(EncodeComposite(u), EncodeComposite(b)); }
    if Less(EncodeComposite(b), EncodeComposite(u)) { LessAsymmetric(EncodeComposite(b), EncodeComposite(u)); }
  }

  lemma {:induction false} SameLeads(w: seq<Value>, w': seq<Value>, v: seq<Value>)
    requires SameRow(w, w') && Formed(w) && Formed(w') && Formed(v) && Leads(v, w)
    ensures Leads(v, w')
  {
    hide CompareValues, Encode, WellFormed;
    forall i | 0 <= i < |v| ensures CompareValues(v[i], w'[i]) == 0 {
      KeyOrder(v[i], w[i]);
      KeyOrder(v[i], w'[i]);
    }
  }

  lemma {:induction false} SameStart(v: Value, v': Value, s: Key)
    requires WellFormed(v) && WellFormed(v') && Encode(v) == Encode(v') && v.Str? && s <= v.s
    ensures v'.Str? && s <= v'.s
  {
    KeyOrder(v, v');
    assert Encode(v)[0] == Tag(v) && Encode(v')[0] == Tag(v');
    LessTotal(v.s, v'.s);
  }

  lemma {:induction false} SatisfiesSame(q: Query, arity: nat, w: seq<Value>, w': seq<Value>)
    requires SameRow(w, w') && Formed(w) && Formed(w') && |w| == arity && Fitting(q, arity) && Satisfies(q, w)
    ensures Satisfies(q, w')
  {
    match q
    case Leading(v) => SameLeads(w, w', v);
    case Between(lo, hi, _, _) =>
      SameBound(w, w', lo);
      SameBound(w, w', hi);
      hide CompareLists, SameRow, Formed;
    case Starting(s) => SameStart(w[0], w'[0], s);
  }

  /** A key is found although it does not match, or the other way round, exactly if its row is a wrong one. */
  lemma {:induction false} KeyExact(keys: seq<Key>, id: IndexId, arity: nat, q: Query, k: Key)
    requires Stores(keys, id, arity) && k in keys && Fitting(q, arity)
    ensures (Scanned(id, q, k) <==> Matches(id, arity, q, k)) <==> !Misread(id, arity, q, k)
  {
    if IdPrefix(id) <= k {
      var w, e :| IsRow(id, arity, w, e, k);
      RowExact(id, arity, q, w, e);
      hide Scanned, Wrong, Satisfies, EntryKey, Fitting, Stores, IdPrefix;
      forall w', e' | IsRow(id, arity, w', e', k)
        ensures (Satisfies(q, w') <==> Satisfies(q, w)) && (Wrong(q, w', e') <==> Wrong(q, w, e))
      {
        RowExact(id, arity, q, w', e');
        RowUnique(id, w, e, w', e');
        RowUnique(id, w', e', w, e);
        if Satisfies(q, w) { SatisfiesSame(q, arity, w, w'); }
        if Satisfies(q, w') { SatisfiesSame(q, arity, w', w); }
      }
    } else {
      NoRow(id, arity, k);
      NotScanned(id, q, k);
      hide Scanned, Wrong, Satisfies, Fitting, Stores, IsRow;
    }
  }

  lemma {:induction false} NoRow(id: IndexId, arity: nat, k: Key)
    requires !(IdPrefix(id) <= k)
    ensures forall w, e :: !IsRow(id, arity, w, e, k)
  {
    hide EntryKey, IdPrefix, Row;
    forall w, e ensures !IsRow(id, arity, w, e, k) { EntryShape(id, w, e); }
  }

  lemma {:induction false} NotScanned(id: IndexId, q: Query, k: Key)
    requires !(IdPrefix(id) <= k)
    ensures !Scanned(id, q, k)
  {
    hide IdPrefix, Within;
    match q
    case Leading(v) =>
      assert IdPrefix(id) <= Prefix(id, v);
      if Prefix(id, v) <= k { PrefixTrans(IdPrefix(id), Prefix(id, v), k); }
    case Between(_, _, _, _) =>
    case Starting(s) =>
      assert IdPrefix(id) <= StartsPrefix(id, s);
      if StartsPrefix(id, s) <= k { PrefixTrans(IdPrefix(id), StartsPrefix(id, s), k); }
  }

  // ---- what a scan returns ----------------------------------------------------------------

  function EntityOf(k: Key): nat
    requires |k| >= 8
  { Get(k[|k|-8..]) }

  function Entities(keys: seq<Key>): seq<nat> {
    if keys == [] then []
    else
      var k, before := keys[|keys|-1], Entities(keys[..|keys|-1]);
      if |k| >= 8 then before + [EntityOf(k)] else before
  }

  /** The keys that pass the byte test, in key order. */
  function Hits(keys: seq<Key>, id: IndexId, q: Query): seq<Key> {
    if keys == [] then []
    else
      var k, before := keys[|keys|-1], Hits(keys[..|keys|-1], id, q);
      if Scanned(id, q, k) then before + [k] else before
  }

  /** The entries that satisfy the query, in key order. */
  ghost function Wanted(keys: seq<Key>, id: IndexId, arity: nat, q: Query): seq<Key> {
    if keys == [] then []
    else
      var k, before := keys[|keys|-1], Wanted(keys[..|keys|-1], id, arity, q);
      if Matches(id, arity, q, k) then before + [k] else before
  }

  lemma {:induction false} Picks(keys: seq<Key>, id: IndexId, arity: nat, q: Query)
    ensures forall k :: k in Hits(keys, id, q) <==> k in keys && Scanned(id, q, k)
    ensures forall k :: k in Wanted(keys, id, arity, q) <==> k in keys && Matches(id, arity, q, k)
    ensures (forall k :: k in keys ==> (Scanned(id, q, k) <==> Matches(id, arity, q, k))) ==>
      Hits(keys, id, q) == Wanted(keys, id, arity, q)
  {
    hide Scanned, Matches;
    if keys != [] {
      var n := |keys| - 1;
      Picks(keys[..n], id, arity, q);
      assert keys == keys[..n] + [keys[n]];
    }
  }

  /** Both keep the order of the keyspace, and entity ids keep the order of the keys. */
  lemma {:induction false} PicksInOrder(keys: seq<Key>, id: IndexId, arity: nat, q: Query)
    requires SortedKeys(keys)
    ensures SortedKeys(Hits(keys, id, q)) && SortedKeys(Wanted(keys, id, arity, q))
  {
    hide Scanned, Matches, Less;
    if keys != [] {
      var n := |keys| - 1;
      PicksInOrder(keys[..n], id, arity, q);
      Picks(keys[..n], id, arity, q);
      assert forall k :: k in keys[..n] ==> Less(k, keys[n]);
    }
  }

  /** The ids of entries are the entities they were written for. */
  lemma {:induction false} EntitiesOf(id: IndexId, keys: seq<Key>, rows: seq<seq<Value>>, es: seq<Bits>)
    requires |keys| == |rows| == |es|
    requires forall j :: 0 <= j < |keys| ==> keys[j] == EntryKey(id, rows[j], es[j])
    ensures Entities(keys) == es
  {
    hide EntryKey, EntityOf;
    if keys != [] {
      var n := |keys| - 1;
      EntitiesOf(id, keys[..n], rows[..n], es[..n]);
      EntryShape(id, rows[n], es[n]);
      assert es == es[..n] + [es[n]];
    }
  }

  /** A scan finds exactly the entries that satisfy its query if and only if the
      index stores no row on which the byte tests go wrong. */
  lemma {:induction false} ScanExact(keys: seq<Key>, id: IndexId, arity: nat, q: Query)
    requires Stores(keys, id, arity) && Fitting(q, arity)
    ensures Hits(keys, id, q) == Wanted(keys, id, arity, q) <==> forall k :: k in keys ==> !Misread(id, arity, q, k)
  {
    Picks(keys, id, arity, q);
    hide Scanned, Matches, Misread, Stores, Hits, Wanted;
    forall k | k in keys
      ensures (Scanned(id, q, k) <==> Matches(id, arity, q, k)) <==> !Misread(id, arity, q, k)
    { KeyExact(keys, id, arity, q, k); }
    if Hits(keys, id, q) == Wanted(keys, id, arity, q) {
      forall k | k in keys ensures !Misread(id, arity, q, k) {
        assert k in Hits(keys, id, q) <==> k in Wanted(keys, id, arity, q);
      }
    }
  }

  // ---- scanning ---------------------------------------------------------------------------

  /** walk: the keys from start on that share the prefix keep. */
  method Walk(keys: seq<Key>, start: Key, keep: Key) returns (lo: nat, hi: nat)
    requires SortedKeys(keys) && keep <= start
    ensures lo <= hi <= |keys|
    ensures forall i :: 0 <= i < |keys| ==> (lo <= i < hi <==> LessEq(start, keys[i]) && keep <= keys[i])
  {
    Laws();
    hide Less;
    lo := 0;
    while lo < |keys| && Less(keys[lo], start)
      invariant lo <= |keys| && forall i :: 0 <= i < lo ==> Less(keys[i], start)
    { lo := lo + 1; }
    hi := lo;
    while hi < |keys| && keep <= keys[hi]
      invariant lo <= hi <= |keys| && forall i :: lo <= i < hi ==> keep <= keys[i]
    { hi := hi + 1; }
    forall i | hi <= i < |keys| ensures !(keep <= keys[i]) { PrefixDone(keep, start, keys[hi], keys[i]); }
  }

  lemma {:induction false} HitsAppend(a: seq<Key>, b: seq<Key>, id: IndexId, q: Query)
    ensures Hits(a + b, id, q) == Hits(a, id, q) + Hits(b, id, q)
  {
    hide Scanned;
    if b == [] { assert a + b == a; }
    else {
      assert (a + b)[..|a + b|-1] == a + b[..|b|-1];
      HitsAppend(a, b[..|b|-1], id, q);
    }
  }

  lemma {:induction false} HitsNone(a: seq<Key>, id: IndexId, q: Query)
    requires forall k :: k in a ==> !Scanned(id, q, k)
    ensures Hits(a, id, q) == []
  {
    if a != [] { HitsNone(a[..|a|-1], id, q); }
  }

  /** Only the walked keys can pass the test. */
  lemma {:induction false} HitsWalked(keys: seq<Key>, lo: nat, hi: nat, id: IndexId, q: Query)
    requires lo <= hi <= |keys| && forall i :: 0 <= i < |keys| && Scanned(id, q, keys[i]) ==> lo <= i < hi
    ensures Hits(keys, id, q) == Hits(keys[lo..hi], id, q)
  {
    hide Scanned;
    assert keys == keys[..lo] + keys[lo..hi] + keys[hi..];
    HitsAppend(keys[..lo] + keys[lo..hi], keys[hi..], id, q);
    HitsAppend(keys[..lo], keys[lo..hi], id, q);
    HitsNone(keys[..lo], id, q);
    HitsNone(keys[hi..], id, q);
  }

  lemma {:induction false} EntitiesSnoc(keys: seq<Key>, k: Key)
    requires |k| >= 8
    ensures Entities(keys + [k]) == Entities(keys) + [EntityOf(k)]
  {
    assert (keys + [k])[..|keys|] == keys;
  }

  /** Keys of the index are long enough to end in an entity id. */
  lemma {:induction false} RowLength(keys: seq<Key>, id: IndexId, arity: nat, k: Key)
    requires Stores(keys, id, arity) && k in keys && IdPrefix(id) <= k
    ensures |k| >= 13
  {
    var w, e :| IsRow(id, arity, w, e, k);
    EntryShape(id, w, e);
  }

  /** collectPrefix. */
  method CollectPrefix(keys: seq<Key>, prefix: Key, ghost id: IndexId, ghost arity: nat, ghost q: Query)
    returns (ids: seq<nat>)
    requires Stores(keys, id, arity) && IdPrefix(id) <= prefix
    requires forall k :: Scanned(id, q, k) <==> prefix <= k
    ensures ids == Entities(Hits(keys, id, q))
  {
    hide Scanned, Less, IdPrefix, Entities, EntityOf, IsRow;
    assert SortedKeys(keys);
    hide Stores;
    var lo, hi := Walk(keys, prefix, prefix);
    forall i | 0 <= i < |keys| && Scanned(id, q, keys[i]) ensures lo <= i < hi {
      assert keys[i] == prefix + keys[i][|prefix|..];
      PrefixFirst(prefix, keys[i][|prefix|..]);
    }
    HitsWalked(keys, lo, hi, id, q);
    ids := [];
    var found := keys[lo..hi];
    assert Entities([]) == [] by { NoEntities(); }
    for m := 0 to |found|
      invariant ids == Entities(Hits(found[..m], id, q))
    {
      var k := found[m];
      assert found[..m+1][..m] == found[..m] && k == keys[lo + m];
      PrefixTrans(IdPrefix(id), prefix, k);
      RowLength(keys, id, arity, k);
      EntitiesSnoc(Hits(found[..m], id, q), k);
      assert Hits(found[..m+1], id, q) == Hits(found[..m], id, q) + [k];
      if prefix <= k && |k| >= 13 { ids := ids + [EntityOf(k)]; }
    }
    assert found[..|found|] == found;
  }

  lemma {:induction false} NoEntities()
    ensures Entities([]) == []
  {}

  /** Equal: the entries whose leading values equal vals; none if vals cannot be indexed. */
  method Equal(keys: seq<Key>, id: IndexId, vals: seq<Value>, ghost arity: nat) returns (ids: seq<nat>)
    requires Stores(keys, id, arity) && Formed(vals) && |vals| <= arity
    ensures ids == if Keyable(vals) then Entities(Hits(keys, id, Leading(vals))) else []
    ensures Hits(keys, id, Leading(vals)) == Wanted(keys, id, arity, Leading(vals)) <==>
      forall k :: k in keys ==> !Misread(id, arity, Leading(vals), k)
  {
    ScanExact(keys, id, arity, Leading(vals));
    IndexableIff(vals);
    hide Keyable;
    if !Indexable(vals) { return []; }
    assert IdPrefix(id) <= Prefix(id, vals);
    ids := CollectPrefix(keys, Prefix(id, vals), id, arity, Leading(vals));
  }

  method PrefixScan(keys: seq<Key>, id: IndexId, vals: seq<Value>, ghost arity: nat) returns (ids: seq<nat>)
    requires Stores(keys, id, arity) && Formed(vals) && |vals| <= arity
    ensures ids == if vals == [] || Keyable(vals) then Entities(Hits(keys, id, Leading(vals))) else []
    ensures Hits(keys, id, Leading(vals)) == Wanted(keys, id, arity, Leading(vals)) <==>
      forall k :: k in keys ==> !Misread(id, arity, Leading(vals), k)
  {
    ScanExact(keys, id, arity, Leading(vals));
    IndexableIff(vals);
    hide Keyable;
    if vals != [] && !Indexable(vals) { return []; }
    assert IdPrefix(id) <= Prefix(id, vals);
    ids := CollectPrefix(keys, Prefix(id, vals), id, arity, Leading(vals));
  }

  /** StartsWith. */
  method StartsWith(keys: seq<Key>, id: IndexId, s: Key, ghost arity: nat) returns (ids: seq<nat>)
    requires Stores(keys, id, arity) && 0 < arity
    ensures ids == Entities(Hits(keys, id, Starting(s)))
    ensures Hits(keys, id, Starting(s)) == Wanted(keys, id, arity, Starting(s)) <==>
      forall k :: k in keys ==> !Misread(id, arity, Starting(s), k)
  {
    ScanExact(keys, id, arity, Starting(s));
    assert IdPrefix(id) <= StartsPrefix(id, s);
    ids := CollectPrefix(keys, StartsPrefix(id, s), id, arity, Starting(s));
  }

  /** A key that passes the tests of Range comes at or after the key where the walk starts. */
  lemma {:induction false} RangeStart(keys: seq<Key>, id: IndexId, arity: nat, q: Query, k: Key)
    requires Stores(keys, id, arity) && k in keys && q.Between? && Fitting(q, arity) && Scanned(id, q, k)
    ensures IdPrefix(id) <= k && LessEq(if q.lo == [] then IdPrefix(id) else Prefix(id, q.lo), k)
  {
    var w, e :| IsRow(id, arity, w, e, k);
    EntryShape(id, w, e);
    if q.lo == [] {
      assert k == IdPrefix(id) + k[|IdPrefix(id)|..];
      PrefixFirst(IdPrefix(id), k[|IdPrefix(id)|..]);
    } else {
      BoundCompare(w, q.lo);
      AfterStart(id, w, e, q.lo);
    }
  }

  /** Range: the entries whose leading values lie between the bounds; none if a bound cannot be indexed. */
  method Range(keys: seq<Key>, id: IndexId, lo: seq<Value>, hi: seq<Value>, loInc: bool, hiInc: bool,
               ghost arity: nat)
    returns (ids: seq<nat>)
    requires Stores(keys, id, arity) && Formed(lo) && Formed(hi) && |lo| <= arity && |hi| <= arity
    ensures var q := Between(lo, hi, loInc, hiInc);
      && (ids == if (lo == [] || Keyable(lo)) && (hi == [] || Keyable(hi)) then Entities(Hits(keys, id, q)) else [])
      && (Hits(keys, id, q) == Wanted(keys, id, arity, q) <==> forall k :: k in keys ==> !Misread(id, arity, q, k))
  {
    ghost var q := Between(lo, hi, loInc, hiInc);
    ScanExact(keys, id, arity, q);
    IndexableIff(lo);
    IndexableIff(hi);
    hide Keyable;
    if (lo != [] && !Indexable(lo)) || (hi != [] && !Indexable(hi)) { return []; }
    assert SortedKeys(keys);
    hide Scanned, Misread, Less, Formed, EncodeComposite, Indexable, Stores, Hits, Wanted;
    var start := if lo == [] then IdPrefix(id) else Prefix(id, lo);
    var a, b := Walk(keys, start, IdPrefix(id));
    hide IdPrefix, Prefix;
    forall i | 0 <= i < |keys| && Scanned(id, q, keys[i]) ensures a <= i < b {
      RangeStart(keys, id, arity, q, keys[i]);
    }
    HitsWalked(keys, a, b, id, q);
    ids := Filter(keys, keys[a..b], id, lo, hi, loInc, hiInc, arity);
  }

  /** The loop of Range. */
  method Filter(ghost keys: seq<Key>, found: seq<Key>, ghost id: IndexId, lo: seq<Value>, hi: seq<Value>,
                loInc: bool, hiInc: bool, ghost arity: nat)
    returns (ids: seq<nat>)
    requires Stores(keys, id, arity)
    requires forall i :: 0 <= i < |found| ==> found[i] in keys && IdPrefix(id) <= found[i]
    ensures ids == Entities(Hits(found, id, Between(lo, hi, loInc, hiInc)))
  {
    hide Less, Within, IdPrefix, Stores, EntityOf, Entities;
    ghost var q := Between(lo, hi, loInc, hiInc);
    ids := [];
    assert Entities([]) == [] by { NoEntities(); }
    for m := 0 to |found|
      invariant ids == Entities(Hits(found[..m], id, q))
    {
      var k := found[m];
      assert found[..m+1][..m] == found[..m];
      RowLength(keys, id, arity, k);
      EntitiesSnoc(Hits(found[..m], id, q), k);
      if Within(k[5..|k|-8], lo, hi, loInc, hiInc) { ids := ids + [EntityOf(k)]; }
    }
    assert found[..|found|] == found;
  }

  // ---- examples ---------------------------------------------------------------------------

  /** Looking up a text finds the entries that continue it with a NUL byte, whatever comes after. */
  lemma {:induction false} NulDefeatsEqual(id: IndexId, s: Key, rest: Key, e: Bits)
    ensures var v, w := [Str(s)], [Str(s + [0] + rest)]; Scanned(id, Leading(v), EntryKey(id, w, e)) && !Leads(v, w)
  {
    var v, w := [Str(s)], [Str(s + [0] + rest)];
    assert NulExtends(s, s + [0] + rest);
    assert Reaches(v, w);
    RowExact(id, 1, Leading(v), w, e);
    LeadingPrefix(id, v, w, e);
  }

  /** A range above a text, that text excluded, drops the entries that continue it with a NUL byte. */
  lemma {:induction false} NulDefeatsRange(id: IndexId, s: Key, rest: Key, e: Bits)
    ensures var q, w := Between([Str(s)], [], false, false), [Str(s + [0] + rest)];
      Satisfies(q, w) && !Scanned(id, q, EntryKey(id, w, e))
  {
    var q, w := Between([Str(s)], [], false, false), [Str(s + [0] + rest)];
    assert NulExtends(s, s + [0] + rest);
    assert Reaches(q.lo, w);
    BoundCompare(w, q.lo);
    RowExact(id, 1, q, w, e);
  }
}
