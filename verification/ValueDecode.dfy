/** Decoding keys back to values. */
module ValueDecode {
  import opened Bytes
  import opened BigEndian
  import opened Powers
  import opened Float64
  import opened NumberKey
  import opened Values

  datatype Decoded = Ok(v: Value, rest: Key) | Bad

  // ---- fixed-width fields -----------------------------------------------------------

  function GetU64(b: Key): Bits
    requires |b| == 8
  {
    PutGet(b);
    Pow2Bytes();
    Get(b)
  }

  function GetU32(b: Key): (n: nat)
    requires |b| == 4
    ensures n < 0x1_0000_0000
  {
    PutGet(b);
    Pow2Bytes();
    Get(b)
  }

  function GetI64(b: Key): Int64
    requires |b| == 8
  { GetU64(b) - B63 }

  function GetI32(b: Key): Int32
    requires |b| == 4
  { GetU32(b) - B31 }

  // ---- decoders -----------------------------------------------------------------------

  datatype Unescaped = Unescaped(s: Key, rest: Key) | Truncated

  /** decodeEscaped. */
  function Unescape(b: Key): (r: Unescaped)
    ensures r.Unescaped? ==> |r.rest| < |b|
  {
    if b == [] then Truncated
    else if b[0] != 0 then Prepend(b[0], Unescape(b[1..]))
    else if |b| > 1 && b[1] == 0xFF then Prepend(0, Unescape(b[2..]))
    else Unescaped([], b[1..])
  }

  function Prepend(c: Byte, u: Unescaped): Unescaped { if u.Truncated? then u else Unescaped([c] + u.s, u.rest) }

  function DecodeNumberField(b: Key): Decoded {
    if |b| < 10 then Bad
    else
      var (n, ok) := DecodeNumber(GetU64(b[..8]), Get(b[8..10]));
      if !ok then Bad else Ok(if n.I? then Int(n.i) else Float(n.f), b[10..])
  }

  function DecodeZone(n: Int64, b: Key): Decoded {
    if b == [] then Bad
    else if b[0] == 0 then Ok(DateTime(n, NoZone), b[1..])
    else if b[0] == 1 then (if |b| < 5 then Bad else Ok(DateTime(n, Offset(GetI32(b[1..5]))), b[5..]))
    else Bad
  }

  function DecodeString(b: Key, raw: bool): Decoded {
    var u := Unescape(b);
    if u.Truncated? then Bad else Ok(if raw then Raw(u.s) else Str(u.s), u.rest)
  }

  /** decodeKey. */
  function Decode(b: Key): (r: Decoded)
    ensures r.Ok? ==> |r.rest| < |b|
    decreases |b|, 0
  { if b == [] then Bad else DecodePayload(b[0], b[1..]) }

  function DecodePayload(tag: Byte, b: Key): (r: Decoded)
    ensures r.Ok? ==> |r.rest| <= |b|
    decreases |b|, 2
  {
    match tag
    case 1 => Ok(Null, b)
    case 2 => if b == [] || b[0] > 1 then Bad else Ok(Bool(b[0] == 1), b[1..])
    case 3 => DecodeNumberField(b)
    case 4 => DecodeString(b, false)
    case 5 => DecodeString(b, true)
    case 6 => if |b| < 4 then Bad else Ok(Date(GetI32(b[..4])), b[4..])
    case 7 => if |b| < 8 then Bad else DecodeZone(GetI64(b[..8]), b[8..])
    case 8 => if |b| < 24 then Bad else Ok(Duration(GetI64(b[..8]), GetI64(b[8..16]), GetI64(b[16..24])), b[24..])
    case 9 => DecodeList(b, [])
    case 10 => DecodeMap(b, [])
    case 11 => if |b| < 8 then Bad else Ok(Node(GetU64(b[..8])), b[8..])
    case 12 => if |b| < 8 then Bad else Ok(Edge(GetU64(b[..8])), b[8..])
    case 13 => DecodePath(b, [], [], true)
    case _ => Bad
  }

  function DecodeList(b: Key, elems: seq<Value>): (r: Decoded)
    ensures r.Ok? ==> |r.rest| <= |b|
    decreases |b|, 1
  {
    if b == [] then Bad
    else if b[0] == 0 then Ok(List(elems), b[1..])
    else match Decode(b)
      case Bad => Bad
      case Ok(v, rest) => DecodeList(rest, elems + [v])
  }

  /** Assigning keys in order into a map that is sorted at the end: a repeated key overwrites. */
  function Assign(entries: seq<Entry>, k: Key, v: Value): seq<Entry> {
    var n := |entries|;
    if n > 0 && entries[n-1].key == k then entries[n-1 := Entry(k, v)] else entries + [Entry(k, v)]
  }

  function DecodeMap(b: Key, entries: seq<Entry>): (r: Decoded)
    ensures r.Ok? ==> |r.rest| <= |b|
    decreases |b|, 1
  {
    if b == [] then Bad
    else if b[0] == 0 then Ok(Map(entries), b[1..])
    else match Decode(b)
      case Bad => Bad
      case Ok(k, rest) =>
        if !k.Str? then Bad
        else match Decode(rest)
          case Bad => Bad
          case Ok(v, rest') =>
            if entries != [] && Less(k.s, entries[|entries|-1].key) then Bad
            else DecodeMap(rest', Assign(entries, k.s, v))
  }

  function DecodePath(b: Key, nodes: seq<Bits>, edges: seq<Bits>, expectNode: bool): (r: Decoded)
    ensures r.Ok? ==> |r.rest| <= |b|
    decreases |b|
  {
    if b == [] then Bad
    else if b[0] == 0 then
      if (nodes != [] && expectNode) || !WellFormedPath(nodes, edges) then Bad else Ok(Path(nodes, edges), b[1..])
    else if b[0] == 1 then
      if !expectNode || |b| < 9 then Bad else DecodePath(b[9..], nodes + [GetU64(b[1..9])], edges, false)
    else if b[0] == 2 then
      if expectNode || |b| < 9 then Bad else DecodePath(b[9..], nodes, edges + [GetU64(b[1..9])], true)
    else Bad
  }

  // ---- the canonical value --------------------------------------------------------------

  function FromNumber(n: Number): Value { if n.I? then Int(n.i) else Float(n.f) }

  /** One value for each class of equal values: numbers are canonical at every depth. */
  function Canon(v: Value): Value
    decreases v
  {
    match v
    case Float(f) => FromNumber(CanonicalNumber(F(f)))
    case List(vs) => List(CanonList(vs))
    case Map(es) => Map(CanonMap(es))
    case _ => v
  }

  function CanonList(vs: seq<Value>): seq<Value>
    decreases vs
  { if vs == [] then [] else [Canon(vs[0])] + CanonList(vs[1..]) }

  function CanonMap(es: seq<Entry>): seq<Entry>
    decreases es
  { if es == [] then [] else [Entry(es[0].key, Canon(es[0].val))] + CanonMap(es[1..]) }

  lemma {:induction false} CanonEqual(v: Value)
    ensures CompareValues(v, Canon(v)) == 0
    decreases v
  {
    match v {
      case Float(f) => DecodeCode(F(f)); hide CompareNumber, CanonicalNumber;
      case Int(i) =>
      case List(vs) => CanonListEqual(vs);
      case Map(es) => CanonMapEqual(es);
      case Path(ns, es) => PathSelf(ns, es);
      case Str(s) => LessIrreflexive(s);
      case Raw(s) => LessIrreflexive(s);
      case _ =>
    }
  }

  lemma {:induction false} PathSelf(ns: seq<Bits>, es: seq<Bits>)
    ensures ComparePaths(ns, es, ns, es) == 0
    decreases |ns|
  { if ns != [] { PathSelf(ns[1..], Rest(es)); } }

  lemma {:induction false} CanonListEqual(vs: seq<Value>)
    ensures CompareLists(vs, CanonList(vs)) == 0
    decreases vs
  {
    if vs != [] {
      CanonEqual(vs[0]);
      CanonListEqual(vs[1..]);
      assert CanonList(vs)[1..] == CanonList(vs[1..]);
    }
  }

  lemma {:induction false} CanonMapEqual(es: seq<Entry>)
    ensures CompareMaps(es, CanonMap(es)) == 0
    decreases es
  {
    if es != [] {
      CanonEqual(es[0].val);
      CanonMapEqual(es[1..]);
      LessIrreflexive(es[0].key);
      assert CanonMap(es)[1..] == CanonMap(es[1..]);
    }
  }

  // ---- round trip -----------------------------------------------------------------------

  lemma {:induction false} U64RoundTrip(n: Bits, x: Key)
    ensures |Put(n, 8) + x| >= 8 && GetU64((Put(n, 8) + x)[..8]) == n && (Put(n, 8) + x)[8..] == x
  {
    Pow2Bytes();
    GetPut(n, 8);
    assert (Put(n, 8) + x)[..8] == Put(n, 8);
  }

  lemma {:induction false} U32RoundTrip(n: nat, x: Key)
    requires n < 0x1_0000_0000
    ensures |Put(n, 4) + x| >= 4 && GetU32((Put(n, 4) + x)[..4]) == n && (Put(n, 4) + x)[4..] == x
  {
    Pow2Bytes();
    GetPut(n, 4);
    assert (Put(n, 4) + x)[..4] == Put(n, 4);
  }

  lemma {:induction false} NumberRoundTrip(n: Number, x: Key)
    ensures DecodeNumberField(EncodeNumber(n) + x) == Ok(FromNumber(CanonicalNumber(n)), x)
  {
    var b := EncodeNumber(n) + x;
    var p, q := Put(Code(n).0, 8), Put(Code(n).1, 2);
    CodeOrder(n, n);
    Pow2Bytes();
    GetPut(Code(n).0, 8);
    GetPut(Code(n).1, 2);
    DecodeCode(n);
    hide Code, DecodeNumber, CanonicalNumber, CompareNumber, Put, Get, Pow2;
    assert b[..8] == p && b[8..10] == q && b[10..] == x;
  }

  lemma {:induction false} EscapeRoundTrip(s: Key, x: Key)
    requires Tail(x)
    ensures Unescape(Escape(s) + x) == Unescaped(s, x)
  {
    var b := Escape(s) + x;
    if s == [] {
      assert b == [0] + x && b[1..] == x;
    } else {
      EscapeRoundTrip(s[1..], x);
      assert s == [s[0]] + s[1..];
      if s[0] == 0 { assert b[2..] == Escape(s[1..]) + x; } else { assert b[1..] == Escape(s[1..]) + x; }
    }
  }

  lemma {:induction false} DateTimeRoundTrip(n: Int64, z: Zone, x: Key)
    ensures var b := Put(n + B63, 8) + EncodeZone(z) + x;
      |b| >= 8 && DecodeZone(GetI64(b[..8]), b[8..]) == Ok(DateTime(n, z), x)
  {
    var b, r := Put(n + B63, 8) + EncodeZone(z) + x, EncodeZone(z) + x;
    assert b == Put(n + B63, 8) + r;
    U64RoundTrip(n + B63, r);
    if z.Offset? {
      var w := Put(z.seconds + B31, 4);
      U32RoundTrip(z.seconds + B31, x);
      assert r == [1] + (w + x);
      assert r[1..5] == (w + x)[..4] && r[5..] == (w + x)[4..];
    } else {
      assert r == [0] + x && r[1..] == x;
    }
  }

  lemma {:induction false} DurationRoundTrip(m: Int64, d: Int64, n: Int64, x: Key)
    ensures var b := Put(m + B63, 8) + (Put(d + B63, 8) + Put(n + B63, 8)) + x;
      |b| >= 24 && GetI64(b[..8]) == m && GetI64(b[8..16]) == d && GetI64(b[16..24]) == n && b[24..] == x
  {
    var p, q, r := Put(m + B63, 8), Put(d + B63, 8), Put(n + B63, 8);
    var b := p + (q + r) + x;
    U64RoundTrip(m + B63, []);
    U64RoundTrip(d + B63, []);
    U64RoundTrip(n + B63, []);
    hide Put, Get;
    assert b[..8] == p == (p + [])[..8] && b[8..16] == q == (q + [])[..8] && b[16..24] == r == (r + [])[..8]
      && b[24..] == x;
  }

  lemma {:induction false} PathEnd(x: Key, nodes: seq<Bits>, edges: seq<Bits>, expectNode: bool)
    requires WellFormedPath(nodes, edges) && (nodes == [] || !expectNode)
    ensures DecodePath([0] + x, nodes, edges, expectNode) == Ok(Path(nodes, edges), x)
  { assert ([0] + x)[1..] == x; }

  lemma {:induction false} PathNode(id: Bits, r: Key, nodes: seq<Bits>, edges: seq<Bits>)
    ensures DecodePath([1] + (Put(id, 8) + r), nodes, edges, true) == DecodePath(r, nodes + [id], edges, false)
  {
    var b, w := [1] + (Put(id, 8) + r), Put(id, 8) + r;
    U64RoundTrip(id, r);
    hide Put, GetU64;
    assert b[1..9] == w[..8] && b[9..] == w[8..];
  }

  lemma {:induction false} PathEdge(id: Bits, r: Key, nodes: seq<Bits>, edges: seq<Bits>)
    ensures DecodePath([2] + (Put(id, 8) + r), nodes, edges, false) == DecodePath(r, nodes, edges + [id], true)
  {
    var b, w := [2] + (Put(id, 8) + r), Put(id, 8) + r;
    U64RoundTrip(id, r);
    hide Put, GetU64;
    assert b[1..9] == w[..8] && b[9..] == w[8..];
  }

  lemma {:induction false} EncodePathNode(ns: seq<Bits>, es: seq<Bits>, x: Key)
    requires ns != []
    ensures EncodePath(ns, es) + x == [1] + (Put(ns[0], 8) + (EdgePart(es) + EncodePath(ns[1..], Rest(es)) + x))
  {
    var p, q := Put(ns[0], 8), EdgePart(es) + EncodePath(ns[1..], Rest(es));
    assert EncodePath(ns, es) == ([1] + p) + q;
    hide EncodePath, Put, EdgePart;
    Assoc([1] + p, q, x);
    Assoc([1], p, q + x);
  }

  lemma {:induction false} EncodePathEdge(id: Bits, tail: Key, x: Key)
    ensures [2] + Put(id, 8) + tail + x == [2] + (Put(id, 8) + (tail + x))
  {
    hide Put;
    Assoc([2] + Put(id, 8), tail, x);
    Assoc([2], Put(id, 8), tail + x);
  }

  lemma {:induction false} EncodePathNil(x: Key)
    ensures EncodePath([], []) == [0] && [] + [0] + x == [0] + x
  {}

  lemma {:induction false} PathRoundTrip(ns: seq<Bits>, es: seq<Bits>, x: Key, nodes: seq<Bits>, edges: seq<Bits>)
    requires ns != [] && |ns| == |es| + 1 && |nodes| == |edges|
    ensures DecodePath(EncodePath(ns, es) + x, nodes, edges, true) == Ok(Path(nodes + ns, edges + es), x)
    decreases |ns|
  {
    hide DecodePath, Put;
    var ns', nodes' := ns[1..], nodes + [ns[0]];
    var tail := EncodePath(ns', Rest(es));
    var r := EdgePart(es) + tail + x;
    EncodePathNode(ns, es, x);
    hide EncodePath;
    PathNode(ns[0], r, nodes, edges);
    assert ns == [ns[0]] + ns';
    Assoc(nodes, [ns[0]], ns');
    if es == [] {
      EncodePathNil(x);
      assert ns' == [] && r == [0] + x && nodes' + [] == nodes' && edges + es == edges;
      PathEnd(x, nodes', edges, false);
    } else {
      EncodePathEdge(es[0], tail, x);
      PathEdge(es[0], tail + x, nodes', edges);
      PathRoundTrip(ns', es[1..], x, nodes', edges + [es[0]]);
      assert es == [es[0]] + es[1..];
      Assoc(edges, [es[0]], es[1..]);
    }
  }

  lemma {:induction false} ListEnd(x: Key, elems: seq<Value>)
    ensures DecodeList([0] + x, elems) == Ok(List(elems), x)
  { assert ([0] + x)[1..] == x; }

  lemma {:induction false} ListNext(b: Key, elems: seq<Value>, v: Value, rest: Key)
    requires b != [] && b[0] != 0 && Decode(b) == Ok(v, rest)
    ensures DecodeList(b, elems) == DecodeList(rest, elems + [v])
  { hide Decode; }

  lemma {:induction false} ListRoundTrip(vs: seq<Value>, x: Key, elems: seq<Value>)
    requires forall i :: 0 <= i < |vs| ==> WellFormed(vs[i])
    ensures DecodeList(EncodeList(vs) + x, elems) == Ok(List(elems + CanonList(vs)), x)
    decreases vs, 0
  {
    hide DecodeList, Decode, Encode;
    if vs == [] {
      ListEnd(x, elems);
      assert elems + [] == elems;
    } else {
      var b, r := EncodeList(vs) + x, EncodeList(vs[1..]) + x;
      Assoc(Encode(vs[0]), EncodeList(vs[1..]), x);
      ListHead(vs);
      ListTail(vs[1..], x);
      ValueRoundTrip(vs[0], r);
      ListNext(b, elems, Canon(vs[0]), r);
      ListRoundTrip(vs[1..], x, elems + [Canon(vs[0])]);
      Assoc(elems, [Canon(vs[0])], CanonList(vs[1..]));
    }
  }

  lemma {:induction false} MapEnd(x: Key, entries: seq<Entry>)
    ensures DecodeMap([0] + x, entries) == Ok(Map(entries), x)
  { assert ([0] + x)[1..] == x; }

  lemma {:induction false} MapNext(b: Key, entries: seq<Entry>, k: Key, r: Key, v: Value, rest: Key)
    requires b != [] && b[0] != 0 && Decode(b) == Ok(Str(k), r) && Decode(r) == Ok(v, rest)
    requires entries != [] ==> !Less(k, entries[|entries|-1].key)
    ensures DecodeMap(b, entries) == DecodeMap(rest, Assign(entries, k, v))
  { hide Decode, Less; }

  lemma {:induction false} StrRoundTrip(k: Key, x: Key)
    requires Tail(x)
    ensures Decode(EncodeStr(k) + x) == Ok(Str(k), x)
  {
    EscapeRoundTrip(k, x);
    var b := EncodeStr(k) + x;
    hide Escape, Unescape;
    assert b == [4] + (Escape(k) + x) && b[1..] == Escape(k) + x;
  }

  lemma {:induction false} MapRoundTrip(es: seq<Entry>, x: Key, entries: seq<Entry>)
    requires WellFormedEntries(entries + es) && forall i :: 0 <= i < |es| ==> WellFormed(es[i].val)
    ensures DecodeMap(EncodeMap(es) + x, entries) == Ok(Map(entries + CanonMap(es)), x)
    decreases es, 0
  {
    hide DecodeMap, Decode, Encode, WellFormedEntries, Assign, Less, Escape;
    if es == [] {
      MapEnd(x, entries);
      assert entries + [] == entries;
    } else {
      var k, v, q := es[0].key, es[0].val, EncodeMap(es[1..]) + x;
      var b, r := EncodeMap(es) + x, Encode(v) + q;
      Assoc(EncodeStr(k), Encode(v) + EncodeMap(es[1..]), x);
      Assoc(Encode(v), EncodeMap(es[1..]), x);
      assert b[0] == 4;
      EncodeTail(v, q);
      StrRoundTrip(k, r);
      MapTail(es[1..], x);
      ValueRoundTrip(v, q);
      NextEntry(entries, es, Canon(v));
      MapNext(b, entries, k, r, Canon(v), q);
      var next := entries + [Entry(k, Canon(v))];
      MapRoundTrip(es[1..], x, next);
      Assoc(entries, [Entry(k, Canon(v))], CanonMap(es[1..]));
    }
  }

  lemma {:induction false} NextEntry(entries: seq<Entry>, es: seq<Entry>, v: Value)
    requires es != [] && WellFormedEntries(entries + es)
    ensures Assign(entries, es[0].key, v) == entries + [Entry(es[0].key, v)]
    ensures entries != [] ==> !Less(es[0].key, entries[|entries|-1].key)
    ensures WellFormedEntries(entries + [Entry(es[0].key, v)] + es[1..])
  {
    var all, all' := entries + es, entries + [Entry(es[0].key, v)] + es[1..];
    Laws();
    hide Less;
    if entries != [] { assert Less(all[|entries|-1].key, all[|entries|].key); }
    assert forall i :: 0 <= i < |all| ==> all'[i].key == all[i].key;
  }

  lemma {:induction false} PayloadRoundTrip(v: Value, x: Key)
    requires WellFormed(v) && Tail(x)
    ensures DecodePayload(Tag(v), Payload(v) + x) == Ok(Canon(v), x)
    decreases v, 1
  {
    var b := Payload(v) + x;
    hide GetU64, GetU32, DecodeZone, EncodeZone, WellFormedPath, WellFormedEntries, Put, Get, Escape, Unescape,
      DecodeList, DecodeMap, DecodePath, EncodeList, EncodeMap, EncodePath, EncodeNumber, DecodeNumberField, Pow2;
    match v {
      case Null => assert b == x;
      case Bool(p) => assert b[1..] == x;
      case Int(i) => NumberRoundTrip(I(i), x);
      case Float(f) => NumberRoundTrip(F(f), x);
      case Str(s) => EscapeRoundTrip(s, x);
      case Raw(s) => EscapeRoundTrip(s, x);
      case Date(d) => U32RoundTrip(d + B31, x);
      case DateTime(n, z) => DateTimeRoundTrip(n, z, x);
      case Duration(m, d, n) => DurationRoundTrip(m, d, n, x);
      case List(vs) => WholeList(vs, x);
      case Map(es) => WholeMap(es, x);
      case Node(id) => U64RoundTrip(id, x);
      case Edge(id) => U64RoundTrip(id, x);
      case Path(ns, es) => WholePath(ns, es, x);
    }
  }

  lemma {:induction false} WholeList(vs: seq<Value>, x: Key)
    requires forall i :: 0 <= i < |vs| ==> WellFormed(vs[i])
    ensures DecodeList(EncodeList(vs) + x, []) == Ok(List(CanonList(vs)), x)
    decreases vs, 1
  {
    hide DecodeList, EncodeList, CanonList;
    ListRoundTrip(vs, x, []);
    assert [] + CanonList(vs) == CanonList(vs);
  }

  lemma {:induction false} WholeMap(es: seq<Entry>, x: Key)
    requires WellFormedEntries(es) && forall i :: 0 <= i < |es| ==> WellFormed(es[i].val)
    ensures DecodeMap(EncodeMap(es) + x, []) == Ok(Map(CanonMap(es)), x)
    decreases es, 1
  {
    hide DecodeMap, EncodeMap, CanonMap;
    assert [] + es == es;
    MapRoundTrip(es, x, []);
    assert [] + CanonMap(es) == CanonMap(es);
  }

  lemma {:induction false} WholePath(ns: seq<Bits>, es: seq<Bits>, x: Key)
    requires WellFormedPath(ns, es)
    ensures DecodePath(EncodePath(ns, es) + x, [], [], true) == Ok(Path(ns, es), x)
  {
    if ns == [] { PathEnd(x, [], [], true); }
    else {
      PathRoundTrip(ns, es, x, [], []);
      assert [] + ns == ns && [] + es == es;
    }
  }

  /** decodeKey undoes appendKey in front of any tail below 0xFF. */
  lemma {:induction false} ValueRoundTrip(v: Value, x: Key)
    requires WellFormed(v) && Tail(x)
    ensures Decode(Encode(v) + x) == Ok(Canon(v), x)
    decreases v, 2
  {
    var b := Encode(v) + x;
    assert b == [Tag(v)] + (Payload(v) + x) && b[1..] == Payload(v) + x;
    PayloadRoundTrip(v, x);
  }

  /** DecodeKey(EncodeKey(v)) is a value equal to v, the same for all equal values. */
  lemma {:induction false} KeyRoundTrip(v: Value, w: Value)
    requires WellFormed(v) && WellFormed(w)
    ensures Decode(Encode(v)) == Ok(Canon(v), []) && CompareValues(v, Canon(v)) == 0
    ensures CompareValues(v, w) == 0 <==> Canon(v) == Canon(w)
  {
    ValueRoundTrip(v, []);
    ValueRoundTrip(w, []);
    assert Encode(v) + [] == Encode(v) && Encode(w) + [] == Encode(w);
    CanonEqual(v);
    CanonEqual(w);
    KeyOrder(v, w);
    CanonWellFormed(v);
    CanonWellFormed(w);
    KeyOrder(v, Canon(v));
    KeyOrder(w, Canon(w));
  }

  lemma {:induction false} CanonWellFormed(v: Value)
    requires WellFormed(v)
    ensures WellFormed(Canon(v))
    decreases v
  {
    match v {
      case List(vs) => CanonListWellFormed(vs);
      case Map(es) => CanonMapWellFormed(es);
      case _ =>
    }
  }

  lemma {:induction false} CanonListWellFormed(vs: seq<Value>)
    requires forall i :: 0 <= i < |vs| ==> WellFormed(vs[i])
    ensures |CanonList(vs)| == |vs| && forall i :: 0 <= i < |vs| ==> WellFormed(CanonList(vs)[i])
    decreases vs
  {
    if vs != [] {
      CanonWellFormed(vs[0]);
      CanonListWellFormed(vs[1..]);
    }
  }

  lemma {:induction false} CanonMapWellFormed(es: seq<Entry>)
    requires forall i :: 0 <= i < |es| ==> WellFormed(es[i].val)
    ensures |CanonMap(es)| == |es| && forall i :: 0 <= i < |es| ==>
      WellFormed(CanonMap(es)[i].val) && CanonMap(es)[i].key == es[i].key
    decreases es
  {
    if es != [] {
      CanonWellFormed(es[0].val);
      CanonMapWellFormed(es[1..]);
    }
  }

  // ---- composites -------------------------------------------------------------------------

  datatype DecodedAll = All(vs: seq<Value>) | Failed

  function DecodeAll(b: Key, done: seq<Value>): DecodedAll
    decreases |b|
  {
    if b == [] then All(done)
    else match Decode(b)
      case Bad => Failed
      case Ok(v, rest) => DecodeAll(rest, done + [v])
  }

  /** DecodeComposite: one value after another until the bytes end. */
  method DecodeComposite(b: Key) returns (r: DecodedAll)
    ensures r == DecodeAll(b, [])
  {
    var out, rest := [], b;
    while rest != []
      invariant DecodeAll(rest, out) == DecodeAll(b, [])
      decreases |rest|
    {
      var d := Decode(rest);
      if d.Bad? { return Failed; }
      out, rest := out + [d.v], d.rest;
    }
    r := All(out);
  }

  /** DecodeComposite undoes EncodeComposite. */
  lemma {:induction false} CompositeRoundTrip(vs: seq<Value>, done: seq<Value>)
    requires forall i :: 0 <= i < |vs| ==> WellFormed(vs[i])
    ensures DecodeAll(EncodeComposite(vs), done) == All(done + CanonList(vs))
  {
    hide Decode, Encode;
    if vs == [] { assert done + [] == done; }
    else {
      var r := EncodeComposite(vs[1..]);
      CompositeTail(vs[1..]);
      ValueRoundTrip(vs[0], r);
      CompositeRoundTrip(vs[1..], done + [Canon(vs[0])]);
      assert done + [Canon(vs[0])] + CanonList(vs[1..]) == done + CanonList(vs);
    }
  }
}
