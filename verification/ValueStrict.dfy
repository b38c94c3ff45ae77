/** What the decoders accept: only values that the constructors could have made, and only their encodings. */
module ValueStrict {
  import opened Bytes
  import opened BigEndian
  import opened Powers
  import opened Float64
  import opened NumberKey
  import opened Values
  import opened ValueDecode

  // ---- decoded values are well-formed --------------------------------------------------------

  lemma {:induction false} DecodedFormed(b: Key)
    requires Decode(b).Ok?
    ensures WellFormed(Decode(b).v)
    decreases |b|, 0
  {
    hide DecodeNumberField, DecodeString, DecodeZone, DecodeList, DecodeMap, DecodePath;
    assert WellFormed(Map([]));
    hide WellFormed;
    if b[0] == 9 { ListFormed(b[1..], []); }
    else if b[0] == 10 { MapFormed(b[1..], []); }
    else if b[0] == 13 { PathFormed(b[1..], [], [], true); }
    else { FlatFormed(b); }
  }

  lemma {:induction false} FlatFormed(b: Key)
    requires Decode(b).Ok? && b[0] != 9 && b[0] != 10 && b[0] != 13
    ensures WellFormed(Decode(b).v) && !Decode(b).v.List? && !Decode(b).v.Map? && !Decode(b).v.Path?
  {
    hide Unescape, DecodeNumber;
  }

  lemma {:induction false} ListFormed(b: Key, elems: seq<Value>)
    requires DecodeList(b, elems).Ok? && forall i :: 0 <= i < |elems| ==> WellFormed(elems[i])
    ensures WellFormed(DecodeList(b, elems).v)
    decreases |b|, 1
  {
    hide Decode;
    if b[0] != 0 {
      DecodedFormed(b);
      ListFormed(Decode(b).rest, elems + [Decode(b).v]);
    }
  }

  lemma {:induction false} MapFormed(b: Key, entries: seq<Entry>)
    requires DecodeMap(b, entries).Ok? && WellFormed(Map(entries))
    ensures WellFormed(DecodeMap(b, entries).v)
    decreases |b|, 1
  {
    hide Decode, Less;
    if b[0] != 0 {
      var k := Decode(b).v.s;
      var v, rest := Decode(Decode(b).rest).v, Decode(Decode(b).rest).rest;
      DecodedFormed(Decode(b).rest);
      AssignFormed(entries, k, v);
      hide WellFormed;
      MapFormed(rest, Assign(entries, k, v));
    }
  }

  lemma {:induction false} AssignFormed(entries: seq<Entry>, k: Key, v: Value)
    requires WellFormed(Map(entries)) && WellFormed(v)
    requires entries != [] ==> !Less(k, entries[|entries|-1].key)
    ensures WellFormed(Map(Assign(entries, k, v)))
  {
    hide Less;
    if entries != [] {
      LessTotal(k, entries[|entries|-1].key);
      forall i | 0 <= i < |entries| - 1 && Less(entries[|entries|-1].key, k) ensures Less(entries[i].key, k) {
        LessTransitive(entries[i].key, entries[|entries|-1].key, k);
      }
    }
  }

  lemma {:induction false} PathFormed(b: Key, nodes: seq<Bits>, edges: seq<Bits>, expectNode: bool)
    requires DecodePath(b, nodes, edges, expectNode).Ok?
    ensures WellFormed(DecodePath(b, nodes, edges, expectNode).v)
    decreases |b|
  {
    hide GetU64;
    if b[0] == 1 { PathFormed(b[9..], nodes + [GetU64(b[1..9])], edges, false); }
    else if b[0] == 2 { PathFormed(b[9..], nodes, edges + [GetU64(b[1..9])], true); }
  }

  // ---- and come from their encodings ----------------------------------------------------------

  /** Without numbers, which have spare codes, and maps, where a repeated key overwrites. */
  predicate Plain(v: Value) {
    match v
    case Int(_) => false
    case Float(_) => false
    case Map(_) => false
    case List(vs) => forall i :: 0 <= i < |vs| ==> Plain(vs[i])
    case _ => true
  }

  lemma {:induction false} UnescapeStrict(b: Key)
    requires Unescape(b).Unescaped?
    ensures b == Escape(Unescape(b).s) + Unescape(b).rest
  {
    if b[0] != 0 {
      UnescapeStrict(b[1..]);
      assert b == [b[0]] + b[1..];
      hide Unescape;
    } else if |b| > 1 && b[1] == 0xFF {
      UnescapeStrict(b[2..]);
      assert b == [0, 0xFF] + b[2..];
    } else {
      assert b == [0] + b[1..];
    }
  }

  lemma {:induction false} Field(b: Key, n: nat)
    requires n <= |b|
    ensures b == Put(Get(b[..n]), n) + b[n..]
  {
    PutGet(b[..n]);
    hide Put, Get;
  }

  /** A value without numbers and maps decodes from its own encoding only. */
  lemma {:induction false} DecodeStrict(b: Key)
    requires Decode(b).Ok? && Plain(Decode(b).v)
    ensures b == Encode(Decode(b).v) + Decode(b).rest
    decreases |b|, 0
  {
    PayloadStrict(b[0], b[1..]);
    var v, rest := Decode(b).v, Decode(b).rest;
    hide DecodePayload, Plain;
    assert b == [b[0]] + b[1..] && b[1..] == Payload(v) + rest;
    hide Payload;
    Assoc([Tag(v)], Payload(v), rest);
  }

  lemma {:induction false} PayloadStrict(tag: Byte, b: Key)
    requires DecodePayload(tag, b).Ok? && Plain(DecodePayload(tag, b).v)
    ensures var r := DecodePayload(tag, b); b == Payload(r.v) + r.rest && tag == Tag(r.v)
    decreases |b|, 2
  {
    hide DecodeNumberField, DecodeString, DecodeZone, DecodeList, DecodeMap, DecodePath, Plain, Put, Get;
    match tag {
      case 3 => NumberNotPlain(b);
      case 4 => StringStrict(b, false);
      case 5 => StringStrict(b, true);
      case 6 => DateStrict(b);
      case 7 => TimeStrict(b);
      case 8 => DurationStrict(b);
      case 9 => ListStrict(b, []);
      case 10 => MapNotPlain(b, []);
      case 11 => IdStrict(b);
      case 12 => IdStrict(b);
      case 13 => PathStrict(b, [], [], true);
      case 2 => assert b == [b[0]] + b[1..];
      case _ => assert [] + b == b;
    }
  }

  lemma {:induction false} NumberNotPlain(b: Key)
    ensures DecodeNumberField(b).Ok? ==> !Plain(DecodeNumberField(b).v)
  { hide DecodeNumber; }

  lemma {:induction false} MapNotPlain(b: Key, entries: seq<Entry>)
    ensures DecodeMap(b, entries).Ok? ==> !Plain(DecodeMap(b, entries).v)
    decreases |b|
  {
    hide Decode;
    if b != [] && b[0] != 0 && DecodeMap(b, entries).Ok? {
      var r := Decode(Decode(b).rest);
      MapNotPlain(r.rest, Assign(entries, Decode(b).v.s, r.v));
    }
  }

  lemma {:induction false} StringStrict(b: Key, raw: bool)
    requires DecodeString(b, raw).Ok?
    ensures var r := DecodeString(b, raw);
      b == Payload(r.v) + r.rest && Tag(r.v) == (if raw then 5 else 4)
  { UnescapeStrict(b); }

  lemma {:induction false} DateStrict(b: Key)
    requires |b| >= 4
    ensures b == Put(GetI32(b[..4]) + B31, 4) + b[4..]
  { Field(b, 4); }

  lemma {:induction false} IdStrict(b: Key)
    requires |b| >= 8
    ensures b == Put(GetU64(b[..8]), 8) + b[8..]
  { Field(b, 8); }

  lemma {:induction false} TimeStrict(b: Key)
    requires |b| >= 8 && DecodeZone(GetI64(b[..8]), b[8..]).Ok?
    ensures var r := DecodeZone(GetI64(b[..8]), b[8..]); b == Payload(r.v) + r.rest && Tag(r.v) == 7
  {
    hide Put, Get, GetI64;
    var n, r := GetI64(b[..8]), DecodeZone(GetI64(b[..8]), b[8..]);
    ZoneStrict(n, b[8..]);
    LongStrict(b);
    hide DecodeZone, EncodeZone;
    Assoc(Put(n + B63, 8), EncodeZone(r.v.zone), r.rest);
  }

  lemma {:induction false} LongStrict(b: Key)
    requires |b| >= 8
    ensures b == Put(GetI64(b[..8]) + B63, 8) + b[8..]
  { Field(b, 8); }

  lemma {:induction false} ZoneStrict(n: Int64, z: Key)
    requires DecodeZone(n, z).Ok?
    ensures var r := DecodeZone(n, z);
      r.v.DateTime? && r.v.nanos == n && z == EncodeZone(r.v.zone) + r.rest
  {
    if z[0] == 1 {
      DateStrict(z[1..]);
      hide Put, Get, GetI32;
      assert z == [1] + z[1..] && z[1..][..4] == z[1..5] && z[1..][4..] == z[5..];
      Assoc([1], Put(GetI32(z[1..5]) + B31, 4), z[5..]);
    } else {
      assert z == [0] + z[1..];
    }
  }

  lemma {:induction false} DurationStrict(b: Key)
    requires |b| >= 24
    ensures b == (Put(GetI64(b[..8]) + B63, 8) + (Put(GetI64(b[8..16]) + B63, 8) + Put(GetI64(b[16..24]) + B63, 8))) +
      b[24..]
  {
    var c, d := b[8..], b[16..];
    LongStrict(b);
    LongStrict(c);
    LongStrict(d);
    assert c[..8] == b[8..16] && c[8..] == d && d[..8] == b[16..24] && d[8..] == b[24..];
    hide Put, Get, GetI64;
    Assoc(Put(GetI64(b[8..16]) + B63, 8), Put(GetI64(b[16..24]) + B63, 8), b[24..]);
    Assoc(Put(GetI64(b[..8]) + B63, 8), Put(GetI64(b[8..16]) + B63, 8) + Put(GetI64(b[16..24]) + B63, 8), b[24..]);
  }

  /** The elements that a list decoder adds, and the bytes that they came from. */
  lemma {:induction false} ListStrict(b: Key, elems: seq<Value>)
    requires DecodeList(b, elems).Ok? && Plain(DecodeList(b, elems).v)
    ensures var r := DecodeList(b, elems);
      r.v.List? && elems <= r.v.elems && b == EncodeList(r.v.elems[|elems|..]) + r.rest
    decreases |b|, 1
  {
    var r := DecodeList(b, elems);
    if b[0] == 0 {
      assert elems[|elems|..] == [] && b == [0] + b[1..];
    } else {
      var d := Decode(b);
      ListStrict(d.rest, elems + [d.v]);
      var vs := r.v.elems[|elems|..];
      assert vs[0] == r.v.elems[|elems|] == d.v && vs[1..] == r.v.elems[|elems| + 1..];
      DecodeStrict(b);
      hide Decode, Encode, Plain, DecodeList;
      Assoc(Encode(d.v), EncodeList(vs[1..]), r.rest);
    }
  }

  /** The nodes and edges that a path decoder adds, from a node on or from an edge on. */
  lemma {:induction false} PathStrict(b: Key, nodes: seq<Bits>, edges: seq<Bits>, expectNode: bool)
    requires DecodePath(b, nodes, edges, expectNode).Ok?
    requires if expectNode then |nodes| == |edges| else |nodes| == |edges| + 1
    ensures var r := DecodePath(b, nodes, edges, expectNode);
      && r.v.Path? && nodes <= r.v.nodes && edges <= r.v.edges
      && var ns, es := r.v.nodes[|nodes|..], r.v.edges[|edges|..];
      b == (if expectNode then EncodePath(ns, es)
            else (if es == [] then [] else [2] + Put(es[0], 8)) + EncodePath(ns, Rest(es))) + r.rest
    decreases |b|, 1
  {
    var r := DecodePath(b, nodes, edges, expectNode);
    if b[0] == 0 {
      assert nodes[|nodes|..] == [] && edges[|edges|..] == [] && b == [0] + b[1..] && [] + [0] == [0];
    } else {
      var id := GetU64(b[1..9]);
      TaggedId(b);
      hide Put, Get, GetU64, EncodePath;
      if b[0] == 1 {
        PathStrict(b[9..], nodes + [id], edges, false);
        NodeStrict(b, nodes, edges, id, r);
      } else {
        PathStrict(b[9..], nodes, edges + [id], true);
        EdgeStrict(b, nodes, edges, id, r);
      }
    }
  }

  lemma {:induction false} TaggedId(b: Key)
    requires |b| >= 9
    ensures b == [b[0]] + (Put(GetU64(b[1..9]), 8) + b[9..])
  {
    IdStrict(b[1..]);
    hide Put, Get, GetU64;
    assert b[1..][..8] == b[1..9] && b[1..][8..] == b[9..] && b == [b[0]] + b[1..];
  }

  lemma {:induction false} NodeStrict(b: Key, nodes: seq<Bits>, edges: seq<Bits>, id: Bits, r: Decoded)
    requires |b| >= 9 && b == [1] + (Put(id, 8) + b[9..]) && r.Ok? && r.v.Path?
    requires nodes + [id] <= r.v.nodes && edges <= r.v.edges
    requires var ns, es := r.v.nodes[|nodes| + 1..], r.v.edges[|edges|..];
      b[9..] == (if es == [] then [] else [2] + Put(es[0], 8)) + EncodePath(ns, Rest(es)) + r.rest
    ensures b == EncodePath(r.v.nodes[|nodes|..], r.v.edges[|edges|..]) + r.rest
  {
    var ns, es := r.v.nodes[|nodes|..], r.v.edges[|edges|..];
    assert ns[0] == (nodes + [id])[|nodes|] == id && ns[1..] == r.v.nodes[|nodes| + 1..];
    var m, t := if es == [] then [] else [2] + Put(es[0], 8), EncodePath(ns[1..], Rest(es));
    assert EncodePath(ns, es) == ([1] + Put(id, 8)) + (m + t);
    hide Put, EncodePath;
    Assoc([1] + Put(id, 8), m + t, r.rest);
    Assoc([1], Put(id, 8), m + t + r.rest);
  }

  lemma {:induction false} EdgeStrict(b: Key, nodes: seq<Bits>, edges: seq<Bits>, id: Bits, r: Decoded)
    requires |b| >= 9 && b == [2] + (Put(id, 8) + b[9..]) && r.Ok? && r.v.Path?
    requires nodes <= r.v.nodes && edges + [id] <= r.v.edges
    requires b[9..] == EncodePath(r.v.nodes[|nodes|..], r.v.edges[|edges| + 1..]) + r.rest
    ensures var ns, es := r.v.nodes[|nodes|..], r.v.edges[|edges|..];
      es != [] && b == ([2] + Put(es[0], 8)) + EncodePath(ns, Rest(es)) + r.rest
  {
    var ns, es := r.v.nodes[|nodes|..], r.v.edges[|edges|..];
    assert es[0] == (edges + [id])[|edges|] == id && Rest(es) == r.v.edges[|edges| + 1..];
    hide Put, EncodePath;
    Assoc([2] + Put(id, 8), EncodePath(ns, Rest(es)), r.rest);
    Assoc([2], Put(id, 8), EncodePath(ns, Rest(es)) + r.rest);
  }
}
