/** Log records as bytes, and what a scan of a cut-off log finds. */
module WalRecords {
  import opened Bytes
  import opened Crc
  import opened LittleEndian

  const RECORD_HEADER: nat := 24
  const CRC_SIZE: nat := 4
  const MAX_PAYLOAD: nat := 0x100_0000

  /** Types 1 to 7 are known. */
  datatype Record = Record(txn: nat, typ: nat, payload: Key)

  predicate ValidType(t: nat) { 1 <= t <= 7 }

  predicate Storable(r: Record) { ValidType(r.typ) && |r.payload| <= MAX_PAYLOAD }

  // ---- records ------------------------------------------------------------------------

  function Header(lsn: nat, r: Record): (b: Key)
    ensures |b| == RECORD_HEADER
  { Put(lsn, 8) + Put(r.txn, 8) + Put(r.typ, 2) + [0, 0] + Put(|r.payload|, 4) }

  function Size(r: Record): nat { RECORD_HEADER + |r.payload| + CRC_SIZE }

  /** appendRecord. */
  function Encode(lsn: nat, r: Record): (b: Key)
    ensures |b| == Size(r)
  { Header(lsn, r) + r.payload + Put(Checksum(Header(lsn, r) + r.payload), 4) }

  /** The bytes of records in a row, the first at lsn. */
  function EncodeAll(rs: seq<Record>, lsn: nat): Key
    decreases |rs|
  { if rs == [] then [] else Encode(lsn, rs[0]) + EncodeAll(rs[1..], lsn + Size(rs[0])) }

  lemma {:induction false} EncodeFirst(rs: seq<Record>, lsn: nat)
    ensures rs == [] ==> EncodeAll(rs, lsn) == []
    ensures rs != [] ==> EncodeAll(rs, lsn) == Encode(lsn, rs[0]) + EncodeAll(rs[1..], lsn + Size(rs[0]))
  { hide Encode, Checksum; }

  lemma {:induction false} EncodeAllSplit(rs: seq<Record>, n: nat, lsn: nat)
    requires n <= |rs|
    ensures EncodeAll(rs, lsn) == EncodeAll(rs[..n], lsn) + EncodeAll(rs[n..], lsn + |EncodeAll(rs[..n], lsn)|)
    decreases |rs|
  {
    hide EncodeAll, Encode;
    if n == 0 {
      assert rs[..0] == [] && rs[0..] == rs;
      EncodeFirst(rs[..0], lsn);
      assert [] + EncodeAll(rs, lsn) == EncodeAll(rs, lsn);
    } else {
      var r, next, part := rs[0], lsn + Size(rs[0]), rs[1..][..n-1];
      EncodeAllSplit(rs[1..], n - 1, next);
      assert rs[..n][0] == r && rs[..n][1..] == part && rs[1..][n-1..] == rs[n..];
      EncodeFirst(rs, lsn);
      EncodeFirst(rs[..n], lsn);
      Assoc(Encode(lsn, r), EncodeAll(part, next), EncodeAll(rs[n..], next + |EncodeAll(part, next)|));
    }
  }

  // ---- scanning -----------------------------------------------------------------------

  /** Records found, the bytes they take, and whether an incomplete record follows. */
  datatype Scanned = Scanned(rs: seq<Record>, used: nat, torn: bool) | Corrupt

  function RecordAt(b: Key): Record
    requires |b| >= RECORD_HEADER && |b| >= RECORD_HEADER + Get(b[20..24])
  { Record(Get(b[8..16]), Get(b[16..18]), b[24..24 + Get(b[20..24])]) }

  /** scanRecords of the last segment, where an incomplete record ends the log. */
  function Scan(b: Key, lsn: nat): Scanned
    decreases |b|
  {
    if b == [] then Scanned([], 0, false)
    else if |b| < RECORD_HEADER || Get(b[20..24]) > MAX_PAYLOAD
      || |b| < RECORD_HEADER + Get(b[20..24]) + CRC_SIZE then Scanned([], 0, true)
    else
      var n := Get(b[20..24]);
      if Get(b[24 + n..28 + n]) != Checksum(b[..24 + n]) || Get(b[..8]) != lsn
        || !ValidType(RecordAt(b).typ) then Corrupt
      else match Scan(b[28 + n..], lsn + 28 + n)
        case Corrupt => Corrupt
        case Scanned(rs, used, torn) => Scanned([RecordAt(b)] + rs, 28 + n + used, torn)
  }

  predicate Fits(lsn: nat, r: Record) {
    lsn < 0x1_0000_0000_0000_0000 && r.txn < 0x1_0000_0000_0000_0000 && Storable(r)
  }

  predicate AllFit(rs: seq<Record>, lsn: nat)
    decreases |rs|
  { rs == [] || (Fits(lsn, rs[0]) && AllFit(rs[1..], lsn + Size(rs[0]))) }

  /** The fields of a record in front of anything. */
  lemma {:induction false} Fields(lsn: nat, r: Record, x: Key)
    requires Fits(lsn, r)
    ensures var b := Encode(lsn, r) + x;
      && |b| >= Size(r) && Get(b[20..24]) == |r.payload| && Get(b[..8]) == lsn && RecordAt(b) == r
      && Get(b[24 + |r.payload|..28 + |r.payload|]) == Checksum(b[..24 + |r.payload|]) && b[28 + |r.payload|..] == x
  {
    hide Checksum;
    var h, p := Header(lsn, r), r.payload;
    var c := Put(Checksum(h + p), 4);
    var b := h + p + c + x;
    Limits();
    GetPut(lsn, 8);
    GetPut(r.txn, 8);
    GetPut(r.typ, 2);
    GetPut(|p|, 4);
    GetPut(Checksum(h + p), 4);
    hide Put, Get, Limit;
    assert h[..8] == Put(lsn, 8) && h[8..16] == Put(r.txn, 8) && h[16..18] == Put(r.typ, 2) && h[20..24] == Put(|p|, 4);
    assert b[..8] == h[..8] && b[8..16] == h[8..16] && b[16..18] == h[16..18] && b[20..24] == h[20..24];
    assert b[..24 + |p|] == h + p && b[24..24 + |p|] == p && b[24 + |p|..28 + |p|] == c && b[28 + |p|..] == x;
  }

  lemma {:induction false} LengthField(lsn: nat, r: Record, x: Key)
    requires Fits(lsn, r)
    ensures var b := Encode(lsn, r) + x; |b| >= Size(r) && Get(b[20..24]) == |r.payload|
  {
    hide Checksum, Encode, Get, Header, Put;
    Fields(lsn, r, x);
  }

  /** A record that was cut off is torn, never corrupt. */
  lemma {:induction false} CutRecord(lsn: nat, r: Record, k: nat)
    requires Fits(lsn, r) && 0 < k < Size(r)
    ensures Scan(Encode(lsn, r)[..k], lsn) == Scanned([], 0, true)
  {
    hide Checksum, Encode, Get, Header, Put, RecordAt, Fits;
    var e := Encode(lsn, r);
    LengthField(lsn, r, []);
    assert e + [] == e;
    TooShort(e[..k], lsn, |r.payload|, e);
  }

  lemma {:induction false} TooShort(b: Key, lsn: nat, n: nat, e: Key)
    requires b <= e && 0 < |b| < 28 + n && |e| >= 24 && Get(e[20..24]) == n
    ensures Scan(b, lsn) == Scanned([], 0, true)
  {
    hide Checksum, Get, RecordAt;
    if |b| >= RECORD_HEADER { assert b[20..24] == e[20..24]; }
  }

  /** Scanning the first k bytes of a log finds exactly the records that are complete in them. */
  lemma {:induction false} ScanPrefix(rs: seq<Record>, lsn: nat, k: nat) returns (n: nat)
    requires AllFit(rs, lsn) && k <= |EncodeAll(rs, lsn)|
    ensures n <= |rs| && |EncodeAll(rs[..n], lsn)| <= k && (n < |rs| ==> k < |EncodeAll(rs[..n+1], lsn)|)
    ensures Scan(EncodeAll(rs, lsn)[..k], lsn) ==
      Scanned(rs[..n], |EncodeAll(rs[..n], lsn)|, k > |EncodeAll(rs[..n], lsn)|)
    decreases |rs|
  {
    hide EncodeAll, Encode, Scan, Size, Checksum;
    var all := EncodeAll(rs, lsn);
    EncodeFirst(rs, lsn);
    EncodeFirst(rs[..0], lsn);
    ScanNothing(lsn);
    if rs == [] {
      n := 0;
      assert all[..k] == [];
    } else {
      var r, next := rs[0], lsn + Size(rs[0]);
      var e, more := Encode(lsn, r), EncodeAll(rs[1..], next);
      OneRecord(rs, lsn);
      if k < Size(r) {
        n := 0;
        assert all[..k] == e[..k] && rs[..0] == [];
        if k > 0 { CutRecord(lsn, r, k); }
      } else {
        var m := ScanPrefix(rs[1..], next, k - Size(r));
        n := m + 1;
        assert all[..k] == e + more[..k - Size(r)];
        ScanOne(lsn, r, more[..k - Size(r)]);
        FirstOf(rs, n, lsn);
        if n < |rs| { FirstOf(rs, n + 1, lsn); }
        assert [r] + rs[1..][..m] == rs[..n];
      }
    }
  }

  lemma {:induction false} ScanNothing(lsn: nat)
    ensures Scan([], lsn) == Scanned([], 0, false)
  {}

  lemma {:induction false} OneRecord(rs: seq<Record>, lsn: nat)
    requires rs != []
    ensures |EncodeAll(rs[..1], lsn)| == Size(rs[0])
  {
    hide Encode;
    assert rs[..1][1..] == [] && rs[..1][0] == rs[0];
  }

  lemma {:induction false} FirstOf(rs: seq<Record>, n: nat, lsn: nat)
    requires 0 < n <= |rs|
    ensures |EncodeAll(rs[..n], lsn)| == Size(rs[0]) + |EncodeAll(rs[1..][..n-1], lsn + Size(rs[0]))|
  {
    hide Encode;
    assert rs[..n][1..] == rs[1..][..n-1] && rs[..n][0] == rs[0];
  }

  lemma {:induction false} ScanOne(lsn: nat, r: Record, x: Key)
    requires Fits(lsn, r)
    ensures Scan(Encode(lsn, r) + x, lsn) == match Scan(x, lsn + Size(r))
      case Corrupt => Corrupt
      case Scanned(rs, used, torn) => Scanned([r] + rs, Size(r) + used, torn)
  {
    hide Header, Put;
    hide Checksum, Encode, Get;
    Fields(lsn, r, x);
  }

  /** A scan that finds no damage takes all bytes or stops in front of an incomplete record. */
  lemma {:induction false} ScanUses(b: Key, lsn: nat)
    requires Scan(b, lsn).Scanned?
    ensures Scan(b, lsn).used <= |b| && (Scan(b, lsn).used == |b| <==> !Scan(b, lsn).torn)
    decreases |b|
  {
    hide Get, Checksum, RecordAt;
    if |b| >= 28 + (if |b| >= 24 then Get(b[20..24]) else 0) && Get(b[20..24]) <= MAX_PAYLOAD {
      ScanUses(b[28 + Get(b[20..24])..], lsn + 28 + Get(b[20..24]));
    }
  }

  /** A record whose bytes are all there and whose checksum, LSN or type is wrong. */
  predicate Damaged(b: Key, lsn: nat) {
    && |b| >= RECORD_HEADER && Get(b[20..24]) <= MAX_PAYLOAD && |b| >= 28 + Get(b[20..24])
    && (|| Get(b[24 + Get(b[20..24])..28 + Get(b[20..24])]) != Checksum(b[..24 + Get(b[20..24])])
        || Get(b[..8]) != lsn || !(1 <= Get(b[16..18]) <= 7))
  }

  /** A damaged record is found, whatever comes before and after it. */
  lemma {:induction false} DamageFound(rs: seq<Record>, lsn: nat, b: Key)
    requires AllFit(rs, lsn) && Damaged(b, lsn + |EncodeAll(rs, lsn)|)
    ensures Scan(EncodeAll(rs, lsn) + b, lsn) == Corrupt
    decreases |rs|
  {
    hide Encode, Checksum, Get, Size;
    EncodeFirst(rs, lsn);
    if rs == [] {
      assert [] + b == b;
    } else {
      var r, next := rs[0], lsn + Size(rs[0]);
      hide EncodeAll, Damaged, Scan;
      DamageFound(rs[1..], next, b);
      assert Encode(lsn, r) + EncodeAll(rs[1..], next) + b == Encode(lsn, r) + (EncodeAll(rs[1..], next) + b);
      ScanOne(lsn, r, EncodeAll(rs[1..], next) + b);
    }
  }
}
