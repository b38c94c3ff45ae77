/** Typed values, their total order, and the memcomparable key encoding. */
module Values {
  import opened Bytes
  import opened BigEndian
  import opened Powers
  import opened Float64
  import opened NumberKey

  type Int32 = n: int | -0x8000_0000 <= n < 0x8000_0000

  datatype Zone = NoZone | Offset(seconds: Int32)

  datatype Entry = Entry(key: Key, val: Value)

  datatype Value =
    | Null
    | Bool(b: bool)
    | Int(i: Int64)
    | Float(f: Bits)
    | Str(s: Key)
    | Raw(raw: Key)
    | Date(days: Int32)
    | DateTime(nanos: Int64, zone: Zone)
    | Duration(months: Int64, dayCount: Int64, nsec: Int64)
    | List(elems: seq<Value>)
    | Map(entries: seq<Entry>)
    | Node(id: Bits)
    | Edge(id: Bits)
    | Path(nodes: seq<Bits>, edges: seq<Bits>)

  /** kindRank: ints and floats are one family. */
  function Rank(v: Value): nat {
    match v
    case Null => 0 case Bool(_) => 1 case Int(_) => 2 case Float(_) => 2 case Str(_) => 3 case Raw(_) => 4
    case Date(_) => 5 case DateTime(_, _) => 6 case Duration(_, _, _) => 7 case List(_) => 8 case Map(_) => 9
    case Node(_) => 10 case Edge(_) => 11 case Path(_, _) => 12
  }

  function NumberOf(v: Value): Number
    requires v.Int? || v.Float?
  { if v.Int? then I(v.i) else F(v.f) }

  /** PathOf: one edge between consecutive nodes. */
  predicate WellFormedPath(nodes: seq<Bits>, edges: seq<Bits>) {
    |nodes| == |edges| + 1 || (nodes == [] && edges == [])
  }

  /** Map keeps its entries strictly ordered by key. */
  predicate WellFormedEntries(es: seq<Entry>) { forall i, j :: 0 <= i < j < |es| ==> Less(es[i].key, es[j].key) }

  /** What the constructors guarantee. */
  predicate WellFormed(v: Value) {
    match v
    case List(vs) => forall i :: 0 <= i < |vs| ==> WellFormed(vs[i])
    case Map(es) => WellFormedEntries(es) && forall i :: 0 <= i < |es| ==> WellFormed(es[i].val)
    case Path(ns, es) => WellFormedPath(ns, es)
    case _ => true
  }

  // ---- order ------------------------------------------------------------------------

  function Then(c: int, d: int): int { if c != 0 then c else d }

  function CompareZones(a: Zone, b: Zone): int {
    match (a, b)
    case (NoZone, NoZone) => 0
    case (NoZone, Offset(_)) => -1
    case (Offset(_), NoZone) => 1
    case (Offset(s), Offset(t)) => Cmp(s, t)
  }

  function CompareValues(a: Value, b: Value): int
    decreases a
  {
    if Rank(a) != Rank(b) then Cmp(Rank(a), Rank(b)) else
    match a
    case Null => 0
    case Bool(x) => if x == b.b then 0 else if !x then -1 else 1
    case Int(_) => CompareNumber(NumberOf(a), NumberOf(b))
    case Float(_) => CompareNumber(NumberOf(a), NumberOf(b))
    case Str(s) => Compare(s, b.s)
    case Raw(s) => Compare(s, b.raw)
    case Date(d) => Cmp(d, b.days)
    case DateTime(n, z) => Then(Cmp(n, b.nanos), CompareZones(z, b.zone))
    case Duration(m, d, n) => Then(Cmp(m, b.months), Then(Cmp(d, b.dayCount), Cmp(n, b.nsec)))
    case List(vs) => CompareLists(vs, b.elems)
    case Map(es) => CompareMaps(es, b.entries)
    case Node(id) => Cmp(id, b.id)
    case Edge(id) => Cmp(id, b.id)
    case Path(ns, es) => ComparePaths(ns, es, b.nodes, b.edges)
  }

  /** Lists are lexicographic; a proper prefix comes first. */
  function CompareLists(a: seq<Value>, b: seq<Value>): int
    decreases a
  {
    if a == [] || b == [] then Cmp(|a|, |b|) else Then(CompareValues(a[0], b[0]), CompareLists(a[1..], b[1..]))
  }

  function CompareMaps(a: seq<Entry>, b: seq<Entry>): int
    decreases a
  {
    if a == [] || b == [] then Cmp(|a|, |b|)
    else Then(Compare(a[0].key, b[0].key), Then(CompareValues(a[0].val, b[0].val), CompareMaps(a[1..], b[1..])))
  }

  function Rest<T>(s: seq<T>): seq<T> { if s == [] then [] else s[1..] }

  /** Paths walk node, edge, node and so on. */
  function ComparePaths(an: seq<Bits>, ae: seq<Bits>, bn: seq<Bits>, be: seq<Bits>): int
    decreases |an|
  {
    if an == [] || bn == [] then Cmp(|an|, |bn|)
    else Then(Cmp(an[0], bn[0]),
      if ae == [] && be != [] then -1 else if ae != [] && be == [] then 1
      else Then(if ae == [] then 0 else Cmp(ae[0], be[0]), ComparePaths(an[1..], Rest(ae), bn[1..], Rest(be))))
  }

  // ---- encoding ---------------------------------------------------------------------

  /** appendEscaped: 0x00 becomes 0x00 0xFF, and 0x00 ends the string. */
  function Escape(s: Key): Key {
    if s == [] then [0] else (if s[0] == 0 then [0, 0xFF] else [s[0]]) + Escape(s[1..])
  }

  function Tag(v: Value): Byte { Rank(v) + 1 }

  const B31: nat := 0x8000_0000

  function EncodeZone(z: Zone): Key { if z.NoZone? then [0] else [1] + Put(z.seconds + B31, 4) }

  /** appendKey: the tag and then the payload. */
  function Encode(v: Value): Key
    decreases v, 1
  { [Tag(v)] + Payload(v) }

  function Payload(v: Value): Key
    decreases v, 0
  {
    match v
    case Null => []
    case Bool(b) => [if b then 1 else 0]
    case Int(i) => EncodeNumber(I(i))
    case Float(f) => EncodeNumber(F(f))
    case Str(s) => Escape(s)
    case Raw(s) => Escape(s)
    case Date(d) => Put(d + B31, 4)
    case DateTime(n, z) => Put(n + B63, 8) + EncodeZone(z)
    case Duration(m, d, n) => Put(m + B63, 8) + (Put(d + B63, 8) + Put(n + B63, 8))
    case List(vs) => EncodeList(vs)
    case Map(es) => EncodeMap(es)
    case Node(id) => Put(id, 8)
    case Edge(id) => Put(id, 8)
    case Path(ns, es) => EncodePath(ns, es)
  }

  function EncodeNumber(n: Number): Key { Put(Code(n).0, 8) + Put(Code(n).1, 2) }

  function EncodeList(vs: seq<Value>): Key
    decreases vs
  { if vs == [] then [0] else Encode(vs[0]) + EncodeList(vs[1..]) }

  /** The encoding of a string, as a map key. */
  function EncodeStr(s: Key): Key { [4] + Escape(s) }

  function EncodeMap(es: seq<Entry>): Key
    decreases es
  { if es == [] then [0] else EncodeStr(es[0].key) + (Encode(es[0].val) + EncodeMap(es[1..])) }

  function EncodePath(ns: seq<Bits>, es: seq<Bits>): Key
    decreases |ns|
  {
    if ns == [] then [0]
    else ([1] + Put(ns[0], 8)) + ((if es == [] then [] else [2] + Put(es[0], 8)) + EncodePath(ns[1..], Rest(es)))
  }

  /** EncodeComposite. */
  function EncodeComposite(vs: seq<Value>): Key { if vs == [] then [] else Encode(vs[0]) + EncodeComposite(vs[1..]) }

  // ---- agreement of an order on values with the order of bytes --------------------------

  /** What may follow an encoding: nothing, or a byte that cannot be taken for an escape. */
  predicate Tail(x: Key) { x == [] || x[0] < 0xFF }

  ghost predicate Agrees(c: int, a: Key, b: Key, x: Key, y: Key) {
    (c < 0 ==> Less(a + x, b + y)) && (c > 0 ==> Less(b + y, a + x)) && (c == 0 ==> a == b)
  }

  /** Two fields in a row. */
  lemma {:induction false} Fields(c: int, a: Key, b: Key, d: int, a': Key, b': Key, x: Key, y: Key)
    requires Agrees(c, a, b, a' + x, b' + y) && (c == 0 ==> Agrees(d, a', b', x, y))
    ensures Agrees(Then(c, d), a + a', b + b', x, y)
  {
    assert a + a' + x == a + (a' + x) && b + b' + y == b + (b' + y);
    if c == 0 {
      LessPrefix(a, a' + x, b' + y);
      LessPrefix(a, b' + y, a' + x);
    }
  }

  lemma {:induction false} PutAgrees(m: nat, n: nat, len: nat, x: Key, y: Key)
    requires m < Pow2(8 * len) && n < Pow2(8 * len)
    ensures Agrees(Cmp(m, n), Put(m, len), Put(n, len), x, y)
  {
    PutOrder(m, n, len);
    PutOrder(n, m, len);
    if m < n { LessFixed(Put(m, len), Put(n, len), x, y); }
    if n < m { LessFixed(Put(n, len), Put(m, len), y, x); }
  }

  lemma {:induction false} ByteAgrees(s: Byte, t: Byte, x: Key, y: Key)
    ensures Agrees(Cmp(s, t), [s], [t], x, y)
  {}

  lemma {:induction false} NumberAgrees(a: Number, b: Number, x: Key, y: Key)
    ensures Agrees(CompareNumber(a, b), EncodeNumber(a), EncodeNumber(b), x, y)
  {
    CodeOrder(a, b);
    Pow2Bytes();
    hide Code, CompareNumber, Pow2, Put;
    var (p, m) := Code(a);
    var (q, n) := Code(b);
    PutAgrees(p, q, 8, Put(m, 2) + x, Put(n, 2) + y);
    PutAgrees(m, n, 2, x, y);
    Fields(Cmp(p, q), Put(p, 8), Put(q, 8), Cmp(m, n), Put(m, 2), Put(n, 2), x, y);
  }

  /** Escaped strings keep byte order in front of any tail below 0xFF. */
  lemma {:induction false} EscapeLess(s: Key, t: Key, x: Key, y: Key)
    requires Less(s, t) && Tail(x)
    ensures Less(Escape(s) + x, Escape(t) + y)
  {
    if s == [] {
      EscapeEmpty(t, x, y);
    } else if s[0] == t[0] {
      var e, p, q := if s[0] == 0 then [0, 0xFF] else [s[0]], Escape(s[1..]), Escape(t[1..]);
      EscapeLess(s[1..], t[1..], x, y);
      hide Less;
      assert Escape(s) + x == e + (p + x) && Escape(t) + y == e + (q + y);
      LessPrefix(e, p + x, q + y);
    } else {
      FirstDecides(Escape(s), Escape(t), x, y);
    }
  }

  lemma {:induction false} EscapeEmpty(t: Key, x: Key, y: Key)
    requires t != [] && Tail(x)
    ensures Less(Escape([]) + x, Escape(t) + y)
  {
    if t[0] == 0 {
      var e := Escape(t[1..]);
      assert Escape(t) == [0, 0xFF] + e && [0, 0xFF] == [0] + [0xFF];
      hide Escape, Less;
      Assoc([0], [0xFF], e);
      Assoc([0], [0xFF] + e, y);
      TailLess(x, [0xFF] + e + y);
      LessPrefix([0], x, [0xFF] + e + y);
    } else {
      FirstDecides([0], Escape(t), x, y);
    }
  }

  lemma {:induction false} TailLess(x: Key, z: Key)
    requires Tail(x) && z != [] && z[0] == 0xFF
    ensures Less(x, z)
  {}

  lemma {:induction false} EscapeAgrees(s: Key, t: Key, x: Key, y: Key)
    requires Tail(x) && Tail(y)
    ensures Agrees(Compare(s, t), Escape(s), Escape(t), x, y)
  {
    LessTotal(s, t);
    if Less(s, t) { EscapeLess(s, t, x, y); }
    if Less(t, s) { LessAsymmetric(t, s); EscapeLess(t, s, y, x); }
  }

  lemma {:induction false} ZoneAgrees(a: Zone, b: Zone, x: Key, y: Key)
    ensures Agrees(CompareZones(a, b), EncodeZone(a), EncodeZone(b), x, y)
  {
    var s, t := if a.NoZone? then 0 else 1, if b.NoZone? then 0 else 1;
    var p, q := if a.NoZone? then [] else Put(a.seconds + B31, 4), if b.NoZone? then [] else Put(b.seconds + B31, 4);
    ByteAgrees(s, t, p + x, q + y);
    if a.Offset? && b.Offset? {
      Pow2Bytes();
      PutAgrees(a.seconds + B31, b.seconds + B31, 4, x, y);
    }
    hide Put;
    Fields(Cmp(s, t), [s], [t], CompareZones(a, b), p, q, x, y);
    assert a.NoZone? ==> [0] + p == [0];
    assert b.NoZone? ==> [0] + q == [0];
  }

  lemma {:induction false} WordAgrees(m: Int64, n: Int64, x: Key, y: Key)
    ensures Agrees(Cmp(m, n), Put(m + B63, 8), Put(n + B63, 8), x, y)
  {
    Pow2Bytes();
    hide Pow2, Put;
    PutAgrees(m + B63, n + B63, 8, x, y);
  }

  lemma {:induction false} DurationAgrees(a: Value, b: Value, x: Key, y: Key)
    requires a.Duration? && b.Duration?
    ensures Agrees(CompareValues(a, b), Payload(a), Payload(b), x, y)
  {
    hide Put, Agrees, Less;
    var a1, a2, a3 := Put(a.months + B63, 8), Put(a.dayCount + B63, 8), Put(a.nsec + B63, 8);
    var b1, b2, b3 := Put(b.months + B63, 8), Put(b.dayCount + B63, 8), Put(b.nsec + B63, 8);
    var c1, c2, c3 := Cmp(a.months, b.months), Cmp(a.dayCount, b.dayCount), Cmp(a.nsec, b.nsec);
    assert Payload(a) == a1 + (a2 + a3) && Payload(b) == b1 + (b2 + b3)
      && CompareValues(a, b) == Then(c1, Then(c2, c3));
    hide Payload, CompareValues, Cmp, Then;
    WordAgrees(a.months, b.months, a2 + a3 + x, b2 + b3 + y);
    WordAgrees(a.dayCount, b.dayCount, a3 + x, b3 + y);
    WordAgrees(a.nsec, b.nsec, x, y);
    Fields(c2, a2, b2, c3, a3, b3, x, y);
    Fields(c1, a1, b1, Then(c2, c3), a2 + a3, b2 + b3, x, y);
  }

  lemma {:induction false} DateTimeAgrees(a: Value, b: Value, x: Key, y: Key)
    requires a.DateTime? && b.DateTime?
    ensures Agrees(CompareValues(a, b), Payload(a), Payload(b), x, y)
  {
    hide Put, Agrees, Less;
    WordAgrees(a.nanos, b.nanos, EncodeZone(a.zone) + x, EncodeZone(b.zone) + y);
    ZoneAgrees(a.zone, b.zone, x, y);
    Fields(Cmp(a.nanos, b.nanos), Put(a.nanos + B63, 8), Put(b.nanos + B63, 8), CompareZones(a.zone, b.zone),
      EncodeZone(a.zone), EncodeZone(b.zone), x, y);
  }

  /** An identifier after its mark. */
  lemma {:induction false} IdAgrees(mark: Byte, m: Bits, n: Bits, x: Key, y: Key)
    ensures Agrees(Cmp(m, n), [mark] + Put(m, 8), [mark] + Put(n, 8), x, y)
  {
    Pow2Bytes();
    hide Put, Agrees, Less;
    PutAgrees(m, n, 8, x, y);
    ByteAgrees(mark, mark, Put(m, 8) + x, Put(n, 8) + y);
    Fields(0, [mark], [mark], Cmp(m, n), Put(m, 8), Put(n, 8), x, y);
  }

  function EdgePart(es: seq<Bits>): Key { if es == [] then [] else [2] + Put(es[0], 8) }

  lemma {:induction false} PathAgrees(an: seq<Bits>, ae: seq<Bits>, bn: seq<Bits>, be: seq<Bits>, x: Key, y: Key)
    requires WellFormedPath(an, ae) && WellFormedPath(bn, be)
    ensures Agrees(ComparePaths(an, ae, bn, be), EncodePath(an, ae), EncodePath(bn, be), x, y)
    decreases |an|
  {
    if an == [] || bn == [] {
      FirstDecides(EncodePath(an, ae), EncodePath(bn, be), x, y);
    } else {
      var an', ae', bn', be' := an[1..], Rest(ae), bn[1..], Rest(be);
      var p, q := EncodePath(an', ae'), EncodePath(bn', be');
      IdAgrees(1, an[0], bn[0], EdgePart(ae) + p + x, EdgePart(be) + q + y);
      var c := if ae == [] && be != [] then -1 else if ae != [] && be == [] then 1
        else Then(if ae == [] then 0 else Cmp(ae[0], be[0]), ComparePaths(an', ae', bn', be'));
      assert Agrees(c, EdgePart(ae) + p, EdgePart(be) + q, x, y) by {
        if ae == [] || be == [] {
          if ae == [] { assert EdgePart(ae) + p == [0]; }
          if be == [] { assert EdgePart(be) + q == [0]; }
          FirstDecides(EdgePart(ae) + p, EdgePart(be) + q, x, y);
        } else {
          PathAgrees(an', ae', bn', be', x, y);
          IdAgrees(2, ae[0], be[0], p + x, q + y);
          Fields(Cmp(ae[0], be[0]), EdgePart(ae), EdgePart(be), ComparePaths(an', ae', bn', be'), p, q, x, y);
        }
      }
      hide Put, Less;
      Fields(Cmp(an[0], bn[0]), [1] + Put(an[0], 8), [1] + Put(bn[0], 8), c, EdgePart(ae) + p, EdgePart(be) + q, x, y);
    }
  }

  /** Different first bytes decide. */
  lemma {:induction false} FirstDecides(a: Key, b: Key, x: Key, y: Key)
    requires a != [] && b != []
    ensures a[0] < b[0] ==> Less(a + x, b + y)
    ensures b[0] < a[0] ==> Less(b + y, a + x)
  {}

  // ---- the order theorem --------------------------------------------------------------

  lemma {:induction false} StrAgrees(s: Key, t: Key, x: Key, y: Key)
    requires Tail(x) && Tail(y)
    ensures Agrees(Compare(s, t), EncodeStr(s), EncodeStr(t), x, y)
  {
    EscapeAgrees(s, t, x, y);
    ByteAgrees(4, 4, Escape(s) + x, Escape(t) + y);
    hide Agrees, Less, Escape;
    Fields(0, [4], [4], Compare(s, t), Escape(s), Escape(t), x, y);
  }

  /** The rest of a list or map is a tail for what comes before it. */
  lemma {:induction false} ListTail(vs: seq<Value>, x: Key)
    ensures Tail(EncodeList(vs) + x)
  { ListHead(vs); }

  lemma {:induction false} ListHead(vs: seq<Value>)
    ensures EncodeList(vs) != [] && EncodeList(vs)[0] == if vs == [] then 0 else Tag(vs[0])
  { if vs != [] { assert Encode(vs[0])[0] == Tag(vs[0]); } }

  lemma {:induction false} MapTail(es: seq<Entry>, x: Key)
    ensures EncodeMap(es) + x != [] && (EncodeMap(es) + x)[0] == if es == [] then 0 else 4
  {}

  lemma {:induction false} EncodeTail(v: Value, x: Key)
    ensures Tail(Encode(v) + x)
  { assert (Encode(v) + x)[0] == Tag(v); }

  lemma {:induction false} ListsAgree(a: seq<Value>, b: seq<Value>, x: Key, y: Key)
    requires (forall i :: 0 <= i < |a| ==> WellFormed(a[i])) && (forall i :: 0 <= i < |b| ==> WellFormed(b[i]))
    ensures Agrees(CompareLists(a, b), EncodeList(a), EncodeList(b), x, y)
    decreases a, 0
  {
    if a == [] || b == [] {
      ListHead(a);
      ListHead(b);
      FirstDecides(EncodeList(a), EncodeList(b), x, y);
    } else {
      var p, q := EncodeList(a[1..]), EncodeList(b[1..]);
      ListTail(a[1..], x);
      ListTail(b[1..], y);
      ValuesAgree(a[0], b[0], p + x, q + y);
      ListsAgree(a[1..], b[1..], x, y);
      hide Agrees, Less, Encode;
      Fields(CompareValues(a[0], b[0]), Encode(a[0]), Encode(b[0]), CompareLists(a[1..], b[1..]), p, q, x, y);
    }
  }

  lemma {:induction false} MapsAgree(a: seq<Entry>, b: seq<Entry>, x: Key, y: Key)
    requires (forall i :: 0 <= i < |a| ==> WellFormed(a[i].val)) && (forall i :: 0 <= i < |b| ==> WellFormed(b[i].val))
    ensures Agrees(CompareMaps(a, b), EncodeMap(a), EncodeMap(b), x, y)
    decreases a, 0
  {
    if a == [] || b == [] {
      FirstDecides(EncodeMap(a), EncodeMap(b), x, y);
    } else {
      var p, q := EncodeMap(a[1..]), EncodeMap(b[1..]);
      var v, w, c := a[0].val, b[0].val, CompareMaps(a[1..], b[1..]);
      MapTail(a[1..], x);
      MapTail(b[1..], y);
      ValuesAgree(v, w, p + x, q + y);
      MapsAgree(a[1..], b[1..], x, y);
      EncodeTail(v, p + x);
      EncodeTail(w, q + y);
      assert Encode(v) + p + x == Encode(v) + (p + x) && Encode(w) + q + y == Encode(w) + (q + y);
      StrAgrees(a[0].key, b[0].key, Encode(v) + p + x, Encode(w) + q + y);
      hide Agrees, Less, Encode, EncodeStr;
      Fields(CompareValues(v, w), Encode(v), Encode(w), c, p, q, x, y);
      Fields(Compare(a[0].key, b[0].key), EncodeStr(a[0].key), EncodeStr(b[0].key), Then(CompareValues(v, w), c),
        Encode(v) + p, Encode(w) + q, x, y);
    }
  }

  /** Only texts need a tail that cannot be taken for an escape. */
  lemma {:induction false} PayloadsAgree(a: Value, b: Value, x: Key, y: Key)
    requires WellFormed(a) && WellFormed(b) && Rank(a) == Rank(b) && (a.Str? || a.Raw? ==> Tail(x) && Tail(y))
    ensures Agrees(CompareValues(a, b), Payload(a), Payload(b), x, y)
    decreases a, 1
  {
    Pow2Bytes();
    hide Agrees, Put, Less, Pow2;
    match a {
      case Null => assert Agrees(0, [], [], x, y) by { NullAgrees(x, y); }
      case Bool(p) => ByteAgrees(if p then 1 else 0, if b.b then 1 else 0, x, y);
      case Int(_) => NumberAgrees(NumberOf(a), NumberOf(b), x, y);
      case Float(_) => NumberAgrees(NumberOf(a), NumberOf(b), x, y);
      case Str(s) => EscapeAgrees(s, b.s, x, y);
      case Raw(s) => EscapeAgrees(s, b.raw, x, y);
      case Date(d) => PutAgrees(d + B31, b.days + B31, 4, x, y);
      case DateTime(_, _) => DateTimeAgrees(a, b, x, y);
      case Duration(_, _, _) => DurationAgrees(a, b, x, y);
      case List(vs) => ListsAgree(vs, b.elems, x, y);
      case Map(es) => MapsAgree(es, b.entries, x, y);
      case Node(id) => PutAgrees(id, b.id, 8, x, y);
      case Edge(id) => PutAgrees(id, b.id, 8, x, y);
      case Path(ns, es) => PathAgrees(ns, es, b.nodes, b.edges, x, y);
    }
  }

  lemma {:induction false} NullAgrees(x: Key, y: Key)
    ensures Agrees(0, [], [], x, y)
  {}

  /** Byte order of encodings, followed by any tails below 0xFF, is the order of
      values; equal values have the same encoding. */
  lemma {:induction false} ValuesAgree(a: Value, b: Value, x: Key, y: Key)
    requires WellFormed(a) && WellFormed(b) && Tail(x) && Tail(y)
    ensures Agrees(CompareValues(a, b), Encode(a), Encode(b), x, y)
    decreases a, 2
  {
    ByteAgrees(Tag(a), Tag(b), Payload(a) + x, Payload(b) + y);
    if Rank(a) == Rank(b) { PayloadsAgree(a, b, x, y); }
    hide Agrees, Less, Payload, CompareValues;
    Fields(Cmp(Rank(a), Rank(b)), [Tag(a)], [Tag(b)], CompareValues(a, b), Payload(a), Payload(b), x, y);
    RankDecides(a, b);
  }

  lemma {:induction false} RankDecides(a: Value, b: Value)
    ensures Rank(a) != Rank(b) ==> CompareValues(a, b) == Cmp(Rank(a), Rank(b))
  {}

  // ---- consequences -----------------------------------------------------------------------

  /** EncodeKey: byte order of whole keys is exactly the order of values. */
  lemma {:induction false} KeyOrder(a: Value, b: Value)
    requires WellFormed(a) && WellFormed(b)
    ensures CompareValues(a, b) < 0 <==> Less(Encode(a), Encode(b))
    ensures CompareValues(a, b) == 0 <==> Encode(a) == Encode(b)
    ensures CompareValues(a, b) > 0 <==> Less(Encode(b), Encode(a))
  {
    ValuesAgree(a, b, [], []);
    assert Encode(a) + [] == Encode(a) && Encode(b) + [] == Encode(b);
    hide CompareValues, Encode;
    LessIrreflexive(Encode(a));
    if Less(Encode(a), Encode(b)) { LessAsymmetric(Encode(a), Encode(b)); }
    if Less(Encode(b), Encode(a)) { LessAsymmetric(Encode(b), Encode(a)); }
  }

  /** Compare is a total order up to equality of keys. */
  lemma {:induction false} CompareIsOrder(a: Value, b: Value, c: Value)
    requires WellFormed(a) && WellFormed(b) && WellFormed(c)
    ensures CompareValues(a, a) == 0
    ensures CompareValues(a, b) < 0 <==> CompareValues(b, a) > 0
    ensures CompareValues(a, b) <= 0 && CompareValues(b, c) <= 0 ==> CompareValues(a, c) <= 0
    ensures CompareValues(a, b) <= 0 && CompareValues(b, c) < 0 ==> CompareValues(a, c) < 0
  {
    hide CompareValues, Encode, WellFormed;
    KeyOrder(a, a);
    KeyOrder(a, b);
    KeyOrder(b, a);
    KeyOrder(b, c);
    KeyOrder(a, c);
    if Less(Encode(a), Encode(b)) && Less(Encode(b), Encode(c)) { LessTransitive(Encode(a), Encode(b), Encode(c)); }
    LessTotal(Encode(a), Encode(c));
  }

  /** EncodeComposite orders lexicographically by the value sequence. */
  lemma {:induction false} CompositeOrder(a: seq<Value>, b: seq<Value>)
    requires (forall i :: 0 <= i < |a| ==> WellFormed(a[i])) && (forall i :: 0 <= i < |b| ==> WellFormed(b[i]))
    ensures CompareLists(a, b) < 0 ==> Less(EncodeComposite(a), EncodeComposite(b))
    ensures CompareLists(a, b) > 0 ==> Less(EncodeComposite(b), EncodeComposite(a))
    ensures CompareLists(a, b) == 0 ==> EncodeComposite(a) == EncodeComposite(b)
  {
    if a != [] && b != [] {
      var p, q := EncodeComposite(a[1..]), EncodeComposite(b[1..]);
      CompositeTail(a[1..]);
      CompositeTail(b[1..]);
      ValuesAgree(a[0], b[0], p, q);
      CompositeOrder(a[1..], b[1..]);
      LessPrefix(Encode(a[0]), p, q);
      LessPrefix(Encode(a[0]), q, p);
    }
  }

  lemma {:induction false} CompositeTail(vs: seq<Value>)
    ensures Tail(EncodeComposite(vs))
  { if vs != [] { EncodeTail(vs[0], EncodeComposite(vs[1..])); } }

  /** An encoding can be a prefix of another: only the tail condition keeps the order. */
  lemma {:induction false} PrefixKey()
    ensures var a, b := Encode(Str([0x61])), Encode(Str([0x61, 0x00]));
      CompareValues(Str([0x61]), Str([0x61, 0x00])) < 0 && a < b && a + [0xFF, 0x00] == b
        && !Less(a + [0xFF, 0x00, 0x01], b)
  {
    var s, t: Key := [0x61], [0x61, 0x00];
    assert s[1..] == [] && t[1..] == [0x00] && t[1..][1..] == [];
    assert Escape(s) == [0x61, 0x00] && Escape(t) == [0x61, 0x00, 0xFF, 0x00];
    assert Less(s, t) && CompareValues(Str(s), Str(t)) == Compare(s, t);
    hide Escape, Compare, CompareValues;
    var a, b := Encode(Str(s)), Encode(Str(t));
    assert a == [4, 0x61, 0x00] && b == [4, 0x61, 0x00, 0xFF, 0x00];
    assert a + [0xFF, 0x00, 0x01] == b + [0x01] && b + [] == b;
    LessPrefix(b, [0x01], []);
  }
}
