/** The segmented write-ahead log: buffering, rotation, truncation and reopening after a crash. */
module Wal {
  import opened Options
  import opened Bytes
  import opened LittleEndian
  import opened WalRecords

  const SEGMENT_HEADER: nat := 28
  const LSN_LIMIT: nat := 0x1_0000_0000_0000_0000

  /** A segment file after its header: the LSN of its first byte, its bytes, and how many are synced. */
  datatype Segment = Segment(first: nat, bytes: Key, synced: nat)

  function End(s: Segment): nat { s.first + |s.bytes| }

  // ---- the stream of all records --------------------------------------------------------

  function Stream(rs: seq<Record>): Key { EncodeAll(rs, 1) }

  function Length(rs: seq<Record>, n: nat): nat
    requires n <= |rs|
  { |EncodeAll(rs[..n], 1)| }

  /** An LSN where a record starts or the log ends. */
  ghost predicate Boundary(rs: seq<Record>, lsn: nat) { exists n: nat :: n <= |rs| && lsn == 1 + Length(rs, n) }

  /** A file holds the part of the stream that its LSNs name. */
  ghost predicate Piece(rs: seq<Record>, s: Segment) {
    && 1 <= s.first && End(s) <= 1 + |Stream(rs)| && s.synced <= |s.bytes|
    && s.bytes == Stream(rs)[s.first - 1..End(s) - 1] && Boundary(rs, s.first)
  }

  ghost predicate Sealed(rs: seq<Record>, segs: seq<Segment>) {
    && (forall i :: 0 <= i < |segs| ==>
      Piece(rs, segs[i]) && segs[i].synced == |segs[i].bytes| && Boundary(rs, End(segs[i])))
    && (forall i :: 0 <= i < |segs| ==> Follows(segs, i))
  }

  /** A segment starts where the one before it ends. */
  predicate Follows(segs: seq<Segment>, i: int)
    requires 0 <= i < |segs|
  { i > 0 ==> segs[i].first == End(segs[i-1]) }

  lemma {:induction false} LengthFull(rs: seq<Record>)
    ensures Length(rs, |rs|) == |Stream(rs)|
  {
    hide EncodeAll;
    assert rs[..|rs|] == rs;
  }

  /** The stream from one record to another. */
  lemma {:induction false} Slice(rs: seq<Record>, a: nat, b: nat)
    requires a <= b <= |rs|
    ensures Length(rs, a) <= Length(rs, b) <= |Stream(rs)|
    ensures Stream(rs)[Length(rs, a)..Length(rs, b)] == EncodeAll(rs[a..b], 1 + Length(rs, a))
  {
    hide EncodeAll;
    var s, x, y := Stream(rs), Length(rs, a), Length(rs, b);
    var p, q := EncodeAll(rs[..b], 1), EncodeAll(rs[..a], 1);
    EncodeAllSplit(rs, b, 1);
    EncodeAllSplit(rs[..b], a, 1);
    assert rs[..b][..a] == rs[..a] && rs[..b][a..] == rs[a..b];
    Middle(s, p, q, EncodeAll(rs[b..], 1 + y), EncodeAll(rs[a..b], 1 + x));
  }

  lemma {:induction false} Middle(s: Key, p: Key, q: Key, u: Key, v: Key)
    requires s == p + u && p == q + v
    ensures |q| <= |p| <= |s| && s[|q|..|p|] == v
  { assert s[..|p|] == p && p[|q|..] == v; }

  /** One more record at the end of the stream. */
  lemma {:induction false} StreamGrows(rs: seq<Record>, r: Record)
    ensures Stream(rs + [r]) == Stream(rs) + Encode(1 + |Stream(rs)|, r)
    ensures forall n: nat :: n <= |rs| ==> Length(rs + [r], n) == Length(rs, n)
  {
    hide EncodeAll, Encode;
    var all, lsn := rs + [r], 1 + |Stream(rs)|;
    EncodeAllSplit(all, |rs|, 1);
    assert all[..|rs|] == rs && all[|rs|..] == [r];
    EncodeFirst([r], lsn);
    EncodeFirst([r][1..], lsn + Size(r));
    hide EncodeAll, Encode;
    assert Encode(lsn, r) + [] == Encode(lsn, r);
    forall n: nat | n <= |rs| ensures Length(all, n) == Length(rs, n) { assert all[..n] == rs[..n]; }
  }

  lemma {:induction false} BoundaryGrows(rs: seq<Record>, r: Record, lsn: nat)
    requires Boundary(rs, lsn)
    ensures Boundary(rs + [r], lsn)
  {
    hide EncodeAll;
    StreamGrows(rs, r);
    hide Length;
    var n: nat :| n <= |rs| && lsn == 1 + Length(rs, n);
    assert Length(rs + [r], n) == Length(rs, n);
  }

  lemma {:induction false} PieceGrows(rs: seq<Record>, r: Record, s: Segment)
    requires Piece(rs, s)
    ensures Piece(rs + [r], s)
  {
    hide EncodeAll, Encode;
    StreamGrows(rs, r);
    BoundaryGrows(rs, r, s.first);
    hide Stream, Boundary;
    assert Stream(rs + [r])[s.first - 1..End(s) - 1] == Stream(rs)[s.first - 1..End(s) - 1];
  }

  lemma {:induction false} SealedGrows(rs: seq<Record>, r: Record, segs: seq<Segment>)
    requires Sealed(rs, segs)
    ensures Sealed(rs + [r], segs)
  {
    hide Piece, Boundary;
    forall i | 0 <= i < |segs|
      ensures Piece(rs + [r], segs[i]) && segs[i].synced == |segs[i].bytes| && Boundary(rs + [r], End(segs[i]))
    {
      PieceGrows(rs, r, segs[i]);
      BoundaryGrows(rs, r, End(segs[i]));
    }
  }

  lemma {:induction false} AllFitGrows(rs: seq<Record>, r: Record, lsn: nat)
    requires AllFit(rs, lsn) && Fits(lsn + |EncodeAll(rs, lsn)|, r)
    ensures AllFit(rs + [r], lsn)
    decreases |rs|
  {
    hide Encode;
    if rs == [] { assert ([] + [r])[1..] == []; }
    else {
      AllFitGrows(rs[1..], r, lsn + Size(rs[0]));
      assert (rs + [r])[1..] == rs[1..] + [r];
    }
  }

  /** A segment stays within its size unless it holds a single record. */
  ghost predicate Small(recs: seq<Record>, s: Segment, size: nat) {
    s.bytes == [] || SEGMENT_HEADER + |s.bytes| <= size || Single(recs, s)
  }

  ghost predicate Single(recs: seq<Record>, s: Segment) {
    exists n: nat :: n < |recs| && s.first == 1 + Length(recs, n) && End(s) <= 1 + Length(recs, n + 1)
  }

  ghost predicate AllSmall(recs: seq<Record>, sealed: seq<Segment>, active: Option<Segment>, size: nat) {
    (forall s :: s in sealed ==> Small(recs, s, size)) && (active.Some? ==> Small(recs, active.value, size))
  }

  lemma {:induction false} SmallGrows(recs: seq<Record>, r: Record, s: Segment, size: nat)
    requires Small(recs, s, size)
    ensures Small(recs + [r], s, size)
  {
    hide EncodeAll;
    StreamGrows(recs, r);
    hide Length;
    if Single(recs, s) {
      var n: nat :| n < |recs| && s.first == 1 + Length(recs, n) && End(s) <= 1 + Length(recs, n + 1);
      assert Length(recs + [r], n) == Length(recs, n) && Length(recs + [r], n + 1) == Length(recs, n + 1);
    }
  }

  /** The record of n bytes at lsn, or a part of it, written to an empty segment or to one with room for it. */
  lemma {:induction false} SmallWrite(recs: seq<Record>, s: Segment, buf: Key, n: nat, k: nat, size: nat)
    requires k <= n <= |buf| && NextRecordAt(recs, End(s), n)
    requires s.bytes == [] || SEGMENT_HEADER + |s.bytes| + n <= size
    ensures Small(recs, s.(bytes := s.bytes + buf[..k]), size)
  {
    hide Length;
    var t := s.(bytes := s.bytes + buf[..k]);
    if s.bytes == [] { assert Single(recs, t); }
  }

  lemma {:induction false} SmallSync(recs: seq<Record>, s: Segment, size: nat)
    requires Small(recs, s, size)
    ensures Small(recs, s.(synced := |s.bytes|), size)
  {
    hide Length;
    assert Single(recs, s) ==> Single(recs, s.(synced := |s.bytes|));
  }

  lemma {:induction false} SmallNew(recs: seq<Record>, lsn: nat, size: nat)
    ensures Small(recs, Segment(lsn, [], 0), size)
  {}

  ghost predicate NextRecordAt(recs: seq<Record>, lsn: nat, n: nat) {
    exists m: nat :: m < |recs| && lsn == 1 + Length(recs, m) && lsn + n == 1 + Length(recs, m + 1)
  }

  lemma {:induction false} AllSmallGrows(recs: seq<Record>, r: Record, sealed: seq<Segment>,
                                         active: Option<Segment>, size: nat)
    requires AllSmall(recs, sealed, active, size)
    ensures AllSmall(recs + [r], sealed, active, size)
  {
    hide Small;
    forall s | s in sealed ensures Small(recs + [r], s, size) { SmallGrows(recs, r, s, size); }
    if active.Some? { SmallGrows(recs, r, active.value, size); }
  }

  lemma {:induction false} EmptyLog()
    ensures LogOk([], [], Some(Segment(1, [], 0)), false, 1, 1, 1, [], false)
  {
    hide Encode;
    var none: seq<Record> := [];
    assert none[..0] == none && 1 == 1 + Length(none, 0);
  }

  // ---- the log --------------------------------------------------------------------------

  ghost predicate ActiveOk(recs: seq<Record>, sealed: seq<Segment>, active: Option<Segment>, pending: bool,
                           fileEnd: nat, durable: nat, broken: bool) {
    match active
    case None => sealed != [] && pending && fileEnd == End(sealed[|sealed|-1]) == durable
    case Some(s) =>
      && Piece(recs, s) && (sealed != [] ==> s.first == End(sealed[|sealed|-1]))
      && s.first <= fileEnd <= End(s) && durable <= s.first + s.synced && (!broken ==> fileEnd == End(s))
  }

  /** The files hold the stream up to fileEnd and the buffer holds the rest. */
  ghost predicate LogOk(recs: seq<Record>, sealed: seq<Segment>, active: Option<Segment>, pending: bool, next: nat,
                        fileEnd: nat, durable: nat, buf: Key, broken: bool) {
    && AllFit(recs, 1) && next == 1 + |Stream(recs)| && 1 <= durable <= fileEnd <= next
    && Boundary(recs, fileEnd) && Boundary(recs, durable) && (!broken ==> buf == Stream(recs)[fileEnd - 1..])
    && Sealed(recs, sealed) && ActiveOk(recs, sealed, active, pending, fileEnd, durable, broken)
  }

  class Log {
    const segSize: nat
    var sealed: seq<Segment>
    var active: Option<Segment>
    var pending: bool
    var next: nat
    var fileEnd: nat
    var durable: nat
    var buf: Key
    var closed: bool
    var broken: bool
    /** Every record ever appended. */
    ghost var recs: seq<Record>

    ghost predicate Valid() reads this { LogOk(recs, sealed, active, pending, next, fileEnd, durable, buf, broken) }

    /** Every segment is within the segment size, but for one that holds a single record. */
    ghost predicate Bounded() reads this { AllSmall(recs, sealed, active, segSize) }

    /** Open over files that read back up to end: the last one is cut there and appended to. */
    constructor Recovered(segSize: nat, files: seq<File>, end: nat, ghost rs: seq<Record>)
      requires files != [] && files[|files|-1].first <= end <= files[|files|-1].first + |files[|files|-1].bytes|
      requires LogOk(rs, Whole(files[..|files|-1]), Some(CutAt(files[|files|-1], end)), false, end, end, end, [], false)
      ensures Valid() && recs == rs && next == durable == end && !closed && !broken
    {
      hide LogOk;
      this.segSize := segSize;
      sealed, active, pending := Whole(files[..|files|-1]), Some(CutAt(files[|files|-1], end)), false;
      next, fileEnd, durable, buf := end, end, end, [];
      closed, broken, recs := false, false, rs;
    }

    constructor (segSize: nat)
      ensures Valid() && Bounded() && recs == [] && next == 1 && !closed && !broken
    {
      hide LogOk;
      this.segSize := segSize;
      sealed, active, pending := [], Some(Segment(1, [], 0)), false;
      next, fileEnd, durable, buf := 1, 1, 1, [];
      closed, broken, recs := false, false, [];
      EmptyLog();
      SmallNew([], 1, segSize);
    }

    /** Append: the LSN of a record is the number of bytes before it, plus one. */
    method Append(txn: nat, typ: nat, payload: Key) returns (ok: bool, lsn: nat)
      requires Valid() && txn < LSN_LIMIT && next < LSN_LIMIT
      modifies this`buf, this`next, this`recs
      ensures Valid() && ok == (1 <= typ <= 7 && |payload| <= 0x100_0000 && !closed && !broken)
      ensures ok ==>
        recs == old(recs) + [Record(txn, typ, payload)] && lsn == old(next)
          && next == lsn + Size(Record(txn, typ, payload))
      ensures !ok ==> recs == old(recs) && next == old(next) && buf == old(buf)
      ensures old(Bounded()) ==> Bounded()
    {
      hide Valid, Bounded;
      lsn, ok := 0, false;
      if ValidType(typ) && |payload| <= MAX_PAYLOAD && !closed && !broken {
        lsn, ok := next, true;
        Buffer(Record(txn, typ, payload));
      }
    }

    method Buffer(r: Record)
      requires Valid() && !broken && Fits(next, r)
      modifies this`buf, this`next, this`recs
      ensures Valid() && recs == old(recs) + [r] && next == old(next) + Size(r)
      ensures old(Bounded()) ==> Bounded()
    {
      hide AllSmall, Piece, Boundary, Sealed, EncodeAll, Encode, AllFit, Stream, Size;
      if Bounded() { AllSmallGrows(recs, r, sealed, active, segSize); }
      Appended(recs, r, sealed, active, fileEnd);
      BoundaryGrows(recs, r, durable);
      buf := buf + Encode(next, r);
      next := next + Size(r);
      recs := recs + [r];
    }

    /** writeFull: the next n buffered bytes go to the file. A failed write may leave a part of them. */
    method WriteFull(n: nat) returns (ok: bool)
      requires Valid() && !broken && active.Some? && n <= |buf| && Boundary(recs, fileEnd + n)
      modifies this`active, this`fileEnd, this`broken, this`buf
      ensures Valid() && (ok <==> !broken)
      ensures old(Bounded()) && NextRecordAt(recs, old(fileEnd), n) && !old(MustRotate(n)) ==> Bounded()
      ensures ok ==> buf == old(buf)[n..] && active.Some? && fileEnd == old(fileEnd) + n
      ensures !ok ==> fileEnd == old(fileEnd)
    {
      hide Piece, Boundary, Sealed, AllFit, Stream, Small, NextRecordAt;
      var s := active.value;
      ok := *;
      var k: nat := n;
      if !ok { k := *; if k > n { k := n; } }
      PieceWrite(recs, s, buf, k);
      if NextRecordAt(recs, End(s), n) && !MustRotate(n) { SmallWrite(recs, s, buf, n, k, segSize); }
      active := Some(s.(bytes := s.bytes + buf[..k]));
      if !ok { broken := true; return; }
      Dropped(Stream(recs), fileEnd - 1, n);
      fileEnd := fileEnd + n;
      buf := buf[n..];
    }

    /** syncFile. */
    method SyncFile() returns (ok: bool)
      requires Valid() && !broken && active.Some?
      modifies this`active, this`broken
      ensures Valid() && (ok <==> !broken) && active.Some?
      ensures ok ==> active.value == old(active.value).(synced := |old(active.value.bytes)|)
      ensures old(Bounded()) ==> Bounded()
    {
      hide Piece, Boundary, Sealed, AllFit, Stream, Small;
      ok := *;
      if !ok { broken := true; return; }
      PieceSync(recs, active.value);
      if Bounded() { SmallSync(recs, active.value, segSize); }
      active := Some(active.value.(synced := |active.value.bytes|));
    }

    /** finishPendingLocked: archive the sealed segment again and open the next one. */
    method FinishPending() returns (ok: bool)
      requires Valid() && !broken
      modifies this`pending, this`active
      ensures Valid() && (ok ==> active.Some?) && (old(Bounded()) ==> Bounded())
    {
      hide Piece, Boundary, Sealed, AllFit, Stream, Small;
      ok := true;
      if !pending { return; }
      ok := *;
      if !ok { return; }
      if active.None? {
        ok := *;
        if !ok { return; }
        PieceNew(recs, fileEnd);
        SmallNew(recs, fileEnd, segSize);
        active := Some(Segment(fileEnd, [], 0));
      }
      pending := false;
    }

    /** rotateLocked: sync and seal the active segment, hand it to the archiver, and open the next one. */
    method Rotate() returns (ok: bool)
      requires Valid() && !broken && active.Some?
      modifies this`active, this`broken, this`sealed, this`durable, this`pending
      ensures Valid() && durable >= old(durable)
      ensures ok ==> !broken && active.Some? && active.value.bytes == [] && durable == fileEnd
      ensures old(Bounded()) ==> Bounded()
    {
      hide Piece, Boundary, Sealed, AllFit, Stream, Small;
      ok := SyncFile();
      if !ok { return; }
      SealOne(recs, sealed, active.value);
      PieceNew(recs, fileEnd);
      SmallNew(recs, fileEnd, segSize);
      durable := fileEnd;
      sealed := sealed + [active.value];
      active, pending := None, true;
      ok := *;
      if !ok { return; }
      active, pending := Some(Segment(fileEnd, [], 0)), false;
    }

    predicate MustRotate(n: nat)
      reads this
      requires active.Some?
    { |active.value.bytes| > 0 && SEGMENT_HEADER + |active.value.bytes| + n > segSize }

    /** Sync, as its leader runs it: write the buffer record by record, rotating as needed, and sync. */
    method Sync() returns (ok: bool)
      requires Valid()
      modifies this`pending, this`active, this`broken, this`sealed, this`durable, this`fileEnd, this`buf
      ensures Valid() && durable >= old(durable)
      ensures ok ==> !broken && buf == [] && durable == fileEnd == next
      ensures closed || old(broken) ==> !ok
      ensures old(Bounded()) ==> Bounded()
    {
      hide Piece, Sealed, AllFit, Stream, Boundary, AllSmall, NextRecordAt;
      if closed || broken { return false; }
      ok := FinishPending();
      if !ok { return; }
      while buf != []
        invariant Valid() && !broken && active.Some? && durable >= old(durable) && (old(Bounded()) ==> Bounded())
        decreases |buf|
      {
        NextRecord(recs, fileEnd, buf);
        var n := RECORD_HEADER + Get(buf[20..24]) + CRC_SIZE;
        if MustRotate(n) {
          ok := Rotate();
          if !ok { return; }
        }
        ok := WriteFull(n);
        if !ok { return; }
      }
      ok := SyncFile();
      if !ok { buf := []; return; }
      TailEmpty(recs, fileEnd);
      durable := fileEnd;
    }

    /** Truncate removes sealed segments that end at or before an LSN; a removal may fail. */
    method Truncate(before: nat) returns (ok: bool)
      requires Valid()
      modifies this`sealed
      ensures Valid() && (closed ==> !ok && sealed == old(sealed))
      ensures exists j: nat :: j <= |old(sealed)| && sealed == old(sealed)[j..] && forall i :: 0 <= i < j ==>
        End(old(sealed)[i]) <= before
      ensures ok ==> forall i :: 0 <= i < |sealed| ==> End(sealed[i]) > before || (pending && i == |sealed| - 1)
      ensures old(Bounded()) ==> Bounded()
    {
      hide Small, Piece, AllFit, Stream, Boundary, Sealed;
      if closed {
        assert sealed == sealed[0..];
        return false;
      }
      var i := 0;
      ok := true;
      while i < |sealed|
        invariant i <= |sealed| && Valid() && sealed == old(sealed) && (active.None? ==> i < |sealed|)
        invariant forall j :: 0 <= j < i ==> End(sealed[j]) <= before
      {
        if (pending && i == |sealed| - 1) || End(sealed[i]) > before { break; }
        ok := *;
        if !ok { break; }
        i := i + 1;
      }
      EndsGrow(recs, sealed);
      SealedRest(recs, sealed, i);
      ghost var was := sealed;
      sealed := sealed[i..];
      assert sealed == was[i..];
    }
  }

  lemma {:induction false} StreamFits(recs: seq<Record>, r: Record)
    requires AllFit(recs, 1) && Fits(1 + |Stream(recs)|, r)
    ensures AllFit(recs + [r], 1)
  {
    hide EncodeAll, AllFit, Fits;
    AllFitGrows(recs, r, 1);
  }

  lemma {:induction false} Appended(recs: seq<Record>, r: Record, sealed: seq<Segment>, active: Option<Segment>,
                                    fileEnd: nat)
    requires AllFit(recs, 1) && Fits(1 + |Stream(recs)|, r) && Boundary(recs, fileEnd)
      && 1 <= fileEnd <= 1 + |Stream(recs)|
    requires Sealed(recs, sealed) && (active.Some? ==> Piece(recs, active.value))
    ensures var all, e := recs + [r], Encode(1 + |Stream(recs)|, r);
      && AllFit(all, 1) && Boundary(all, fileEnd) && Sealed(all, sealed) && (active.Some? ==> Piece(all, active.value))
      && |Stream(all)| == |Stream(recs)| + Size(r) && Stream(all)[fileEnd - 1..] == Stream(recs)[fileEnd - 1..] + e
  {
    hide Piece, Boundary, Sealed, EncodeAll, Encode, AllFit, Stream, Fits, Size;
    StreamFits(recs, r);
    StreamGrows(recs, r);
    SealedGrows(recs, r, sealed);
    BoundaryGrows(recs, r, fileEnd);
    if active.Some? { PieceGrows(recs, r, active.value); }
    TailGrows(Stream(recs), Encode(1 + |Stream(recs)|, r), fileEnd - 1);
  }

  lemma {:induction false} TailGrows(s: Key, e: Key, n: nat)
    requires n <= |s|
    ensures (s + e)[n..] == s[n..] + e
  {}

  lemma {:induction false} PieceWrite(rs: seq<Record>, s: Segment, buf: Key, k: nat)
    requires Piece(rs, s) && k <= |buf| && buf == Stream(rs)[End(s) - 1..]
    ensures Piece(rs, s.(bytes := s.bytes + buf[..k]))
  {
    hide Boundary, Stream;
    var all := Stream(rs);
    assert all[s.first - 1..End(s) - 1 + k] == all[s.first - 1..End(s) - 1] + all[End(s) - 1..][..k];
  }

  lemma {:induction false} Dropped(s: Key, a: nat, n: nat)
    requires a + n <= |s|
    ensures s[a..][n..] == s[a + n..]
  {}

  lemma {:induction false} PieceSync(rs: seq<Record>, s: Segment)
    requires Piece(rs, s)
    ensures Piece(rs, s.(synced := |s.bytes|))
  { hide Boundary, Stream; }

  lemma {:induction false} PieceNew(rs: seq<Record>, lsn: nat)
    requires Boundary(rs, lsn) && 1 <= lsn <= 1 + |Stream(rs)|
    ensures Piece(rs, Segment(lsn, [], 0))
  { hide Boundary, Stream; }

  lemma {:induction false} SealOne(rs: seq<Record>, sealed: seq<Segment>, s: Segment)
    requires Sealed(rs, sealed) && Piece(rs, s) && s.synced == |s.bytes| && Boundary(rs, End(s))
    requires sealed != [] ==> s.first == End(sealed[|sealed|-1])
    ensures Sealed(rs, sealed + [s])
  {
    hide Boundary, Piece;
    var all := sealed + [s];
    forall j | 0 <= j < |all| ensures Follows(all, j) { if j < |sealed| { assert Follows(sealed, j); } }
  }

  lemma {:induction false} SealedRest(rs: seq<Record>, sealed: seq<Segment>, i: nat)
    requires Sealed(rs, sealed) && i <= |sealed|
    ensures Sealed(rs, sealed[i..])
  {
    hide Boundary, Piece;
    var rest := sealed[i..];
    forall j | 0 <= j < |rest| ensures Follows(rest, j) { assert Follows(sealed, i + j); }
  }

  lemma {:induction false} EndsGrow(rs: seq<Record>, sealed: seq<Segment>)
    requires Sealed(rs, sealed)
    ensures forall i, j :: 0 <= i <= j < |sealed| ==> End(sealed[i]) <= End(sealed[j])
    decreases |sealed|
  {
    hide Boundary, Piece;
    if sealed != [] {
      var n := |sealed| - 1;
      SealedFirst(rs, sealed, n);
      EndsGrow(rs, sealed[..n]);
      forall i, j | 0 <= i <= j < |sealed| ensures End(sealed[i]) <= End(sealed[j]) {
        if i < n {
          assert sealed[..n][i] == sealed[i] && sealed[..n][n-1] == sealed[n-1];
          assert Follows(sealed, n);
          if j < n { assert sealed[..n][j] == sealed[j]; }
        }
      }
    }
  }

  lemma {:induction false} SealedFirst(rs: seq<Record>, sealed: seq<Segment>, n: nat)
    requires Sealed(rs, sealed) && n <= |sealed|
    ensures Sealed(rs, sealed[..n])
  {
    hide Boundary, Piece;
    forall j | 0 <= j < n ensures Follows(sealed[..n], j) { assert Follows(sealed, j); }
  }

  lemma {:induction false} TailEmpty(rs: seq<Record>, lsn: nat)
    requires 1 <= lsn <= 1 + |Stream(rs)| && Stream(rs)[lsn - 1..] == []
    ensures lsn == 1 + |Stream(rs)|
  { hide Stream; }

  /** The record at the front of the buffer. */
  lemma {:induction false} NextRecord(rs: seq<Record>, lsn: nat, buf: Key)
    requires AllFit(rs, 1) && Boundary(rs, lsn) && 1 <= lsn <= 1 + |Stream(rs)| && buf == Stream(rs)[lsn - 1..]
      && buf != []
    ensures |buf| >= 28 && var n := 28 + Get(buf[20..24]);
      n <= |buf| && Boundary(rs, lsn + n) && NextRecordAt(rs, lsn, n)
  {
    hide Stream, Encode, EncodeAll, Get, AllFit, Length, Size;
    var n: nat :| n <= |rs| && lsn == 1 + Length(rs, n);
    RecordsFrom(rs, n);
    EncodeFirst(rs[n..], lsn);
    assert n < |rs|;
    AtFront(rs, n);
    OneFurther(rs, n);
    assert Boundary(rs, 1 + Length(rs, n + 1));
  }

  lemma {:induction false} AtFront(rs: seq<Record>, n: nat)
    requires AllFit(rs, 1) && n < |rs|
    ensures var b := EncodeAll(rs[n..], 1 + Length(rs, n)); |b| >= Size(rs[n]) == 28 + Get(b[20..24])
  {
    hide Encode, EncodeAll, Get, AllFit, RecordAt, Fits, Header;
    var r, lsn := rs[n], 1 + Length(rs, n);
    FitsAt(rs, n, 1);
    assert rs[n..][0] == r;
    EncodeFirst(rs[n..], lsn);
    LengthField(lsn, r, EncodeAll(rs[n..][1..], lsn + Size(r)));
  }

  lemma {:induction false} RecordsFrom(rs: seq<Record>, n: nat)
    requires n <= |rs|
    ensures Length(rs, n) <= |Stream(rs)| && Stream(rs)[Length(rs, n)..] == EncodeAll(rs[n..], 1 + Length(rs, n))
  {
    hide EncodeAll;
    Slice(rs, n, |rs|);
    LengthFull(rs);
    assert rs[n..|rs|] == rs[n..];
    hide Stream, Length, EncodeAll;
  }

  lemma {:induction false} FitsAt(rs: seq<Record>, n: nat, lsn: nat)
    requires AllFit(rs, lsn) && n < |rs|
    ensures Fits(lsn + |EncodeAll(rs[..n], lsn)|, rs[n]) && AllFit(rs[n..], lsn + |EncodeAll(rs[..n], lsn)|)
    decreases n
  {
    hide Encode, EncodeAll;
    if n == 0 {
      EncodeFirst(rs[..0], lsn);
      assert rs[0..] == rs;
    } else {
      FitsAt(rs[1..], n - 1, lsn + Size(rs[0]));
      FirstOf(rs, n, lsn);
      assert rs[1..][n-1..] == rs[n..];
      hide EncodeAll;
    }
  }

  lemma {:induction false} OneFurther(rs: seq<Record>, n: nat)
    requires n < |rs|
    ensures Length(rs, n + 1) == Length(rs, n) + Size(rs[n])
  {
    hide EncodeAll, Encode;
    Slice(rs, n, n + 1);
    assert rs[n..n+1] == [rs[n]];
    EncodeFirst([rs[n]], 1 + Length(rs, n));
    EncodeFirst([rs[n]][1..], 1 + Length(rs, n) + Size(rs[n]));
    hide Stream, Length, EncodeAll;
  }

  // ---- crash and reopening ----------------------------------------------------------------

  /** A segment file found on disk. */
  datatype File = File(first: nat, bytes: Key)

  function Files(segs: seq<Segment>): seq<File> {
    seq(|segs|, i requires 0 <= i < |segs| => File(segs[i].first, segs[i].bytes))
  }

  /** A crash keeps sealed segments whole and cuts the active one anywhere past its
      synced part. While the next segment is being created its file may be there,
      without records; Open makes it anew if its header is torn. */
  ghost predicate AfterCrash(sealed: seq<Segment>, active: Option<Segment>, files: seq<File>) {
    match active
    case None => sealed != []
      && (files == Files(sealed) || files == Files(sealed) + [File(End(sealed[|sealed|-1]), [])])
    case Some(s) =>
      exists k: nat :: s.synced <= k <= |s.bytes| && files == Files(sealed) + [File(s.first, s.bytes[..k])]
  }

  datatype Reopened = Reopened(rs: seq<Record>, end: nat) | Failed

  /** Open over the first n segments: each must start where the last one ended, and
      only the last one may end in an incomplete record, which is cut off. */
  function ReadBack(files: seq<File>, n: nat): Reopened
    requires n <= |files| && files != []
  {
    if n == 0 then Reopened([], files[0].first)
    else match ReadBack(files, n - 1)
      case Failed => Failed
      case Reopened(rs, end) => if files[n-1].first != end then Failed
        else ReadNext(rs, end, Scan(files[n-1].bytes, end), n == |files|)
  }

  function ReadNext(rs: seq<Record>, end: nat, s: Scanned, last: bool): Reopened {
    if s.Corrupt? || (s.torn && !last) then Failed else Reopened(rs + s.rs, end + s.used)
  }

  lemma {:induction false} FailStays(files: seq<File>, i: nat, n: nat)
    requires i <= n <= |files| && files != [] && ReadBack(files, i).Failed?
    ensures ReadBack(files, n).Failed?
    decreases n - i
  {
    hide Scan;
    if i < n { FailStays(files, i, n - 1); }
  }

  /** A log with a damaged record in any of its segments does not open. */
  lemma {:induction false} DamageFails(files: seq<File>, i: nat, n: nat)
    requires i < n <= |files| && Scan(files[i].bytes, files[i].first).Corrupt?
    ensures ReadBack(files, n).Failed?
    decreases n
  {
    hide Scan;
    if i < n - 1 { DamageFails(files, i, n - 1); }
  }

  /** A log that opens has segments without gaps, and all of them but the last hold whole records only. */
  lemma {:induction false} OpensWhole(files: seq<File>, n: nat, i: nat)
    requires i < n <= |files| && ReadBack(files, n).Reopened?
    ensures Scan(files[i].bytes, files[i].first).Scanned?
    ensures i < |files| - 1 ==> !Scan(files[i].bytes, files[i].first).torn
    ensures i < n - 1 ==> files[i + 1].first == files[i].first + |files[i].bytes|
    ensures i == n - 1 ==> ReadBack(files, n).end == files[i].first + Scan(files[i].bytes, files[i].first).used
    decreases n
  {
    hide Scan;
    ScanUses(files[n-1].bytes, files[n-1].first);
    if i < n - 1 { OpensWhole(files, n - 1, i); }
    if 0 < n - 1 { OpensWhole(files, n - 1, n - 2); ScanUses(files[n-2].bytes, files[n-2].first); }
  }

  /** Open. */
  method Reopen(files: seq<File>) returns (r: Reopened)
    requires files != []
    ensures r == ReadBack(files, |files|)
  {
    hide Scan;
    var rs: seq<Record>, wanted: nat := [], files[0].first;
    for i := 0 to |files|
      invariant ReadBack(files, i) == Reopened(rs, wanted)
    {
      if files[i].first != wanted {
        FailStays(files, i + 1, |files|);
        return Failed;
      }
      var s := Scan(files[i].bytes, wanted);
      if s.Corrupt? || (s.torn && i < |files| - 1) {
        FailStays(files, i + 1, |files|);
        return Failed;
      }
      rs, wanted := rs + s.rs, wanted + s.used;
    }
    r := Reopened(rs, wanted);
  }

  lemma {:induction false} LengthGrows(rs: seq<Record>, a: nat, b: nat)
    requires a < b <= |rs|
    ensures Length(rs, a) < Length(rs, b)
    decreases b - a
  {
    hide Length;
    OneFurther(rs, b - 1);
    if a < b - 1 { LengthGrows(rs, a, b - 1); }
  }

  lemma {:induction false} FitsFrom(rs: seq<Record>, n: nat)
    requires AllFit(rs, 1) && n <= |rs|
    ensures AllFit(rs[n..], 1 + Length(rs, n))
  {
    hide EncodeAll;
    if n < |rs| { FitsAt(rs, n, 1); }
  }

  /** A scan from record a over k bytes of the stream stops at the last record boundary. */
  lemma {:induction false} ScanPiece(rs: seq<Record>, a: nat, k: nat) returns (b: nat, used: nat)
    requires AllFit(rs, 1) && a <= |rs| && Length(rs, a) + k <= |Stream(rs)|
    ensures a <= b <= |rs| && Length(rs, b) == Length(rs, a) + used && used <= k
      && (b < |rs| ==> Length(rs, a) + k < Length(rs, b + 1))
    ensures Scan(Stream(rs)[Length(rs, a)..Length(rs, a) + k], 1 + Length(rs, a)) == Scanned(rs[a..b], used, used < k)
  {
    hide Length, EncodeAll, Scan, Stream, AllFit;
    var lsn, rest := 1 + Length(rs, a), rs[a..];
    RecordsFrom(rs, a);
    FitsFrom(rs, a);
    Taken(Stream(rs), Length(rs, a), k);
    var n := ScanPrefix(rest, lsn, k);
    b := a + n;
    assert rest[..n] == rs[a..b];
    SliceLength(rs, a, b);
    used := |EncodeAll(rs[a..b], lsn)|;
    if n < |rest| {
      assert rest[..n+1] == rs[a..b+1];
      SliceLength(rs, a, b + 1);
    }
  }

  lemma {:induction false} Taken(s: Key, a: nat, k: nat)
    requires a + k <= |s|
    ensures s[a..a + k] == s[a..][..k]
  {}

  lemma {:induction false} SliceLength(rs: seq<Record>, a: nat, b: nat)
    requires a <= b <= |rs|
    ensures Length(rs, b) == Length(rs, a) + |EncodeAll(rs[a..b], 1 + Length(rs, a))|
  {
    hide EncodeAll, Stream, Length;
    Slice(rs, a, b);
  }

  /** What the first i sealed segments read back as. */
  lemma {:induction false} ReadSealed(rs: seq<Record>, sealed: seq<Segment>, files: seq<File>, m: nat, i: nat)
    returns (n: nat)
    requires AllFit(rs, 1) && Sealed(rs, sealed) && i <= |sealed| <= |files| && files != [] && m <= |rs|
      && files[0].first == 1 + Length(rs, m)
    requires forall j :: 0 <= j < |sealed| ==> files[j] == File(sealed[j].first, sealed[j].bytes)
    ensures m <= n <= |rs| && ReadBack(files, i) == Reopened(rs[m..n], 1 + Length(rs, n))
    ensures i > 0 ==> 1 + Length(rs, n) == End(sealed[i-1])
    ensures i == 0 ==> n == m
    decreases i
  {
    hide Length, Scan, Stream, AllFit, EncodeAll;
    if i == 0 {
      n := m;
      assert rs[m..m] == [];
    } else {
      var a := ReadSealed(rs, sealed, files, m, i - 1);
      var s := sealed[i-1];
      assert Piece(rs, s) && Boundary(rs, End(s)) && Follows(sealed, i - 1);
      assert s.first == 1 + Length(rs, a);
      var used;
      n, used := ScanPiece(rs, a, |s.bytes|);
      WholePiece(rs, n, End(s));
      assert rs[m..a] + rs[a..n] == rs[m..n];
    }
  }

  /** The last boundary at or before an LSN that is itself a boundary is that LSN. */
  lemma {:induction false} WholePiece(rs: seq<Record>, n: nat, end: nat)
    requires n <= |rs| && Boundary(rs, end) && 1 + Length(rs, n) <= end && (n < |rs| ==> end < 1 + Length(rs, n + 1))
    ensures 1 + Length(rs, n) == end
  {
    hide Length;
    var b: nat :| b <= |rs| && end == 1 + Length(rs, b);
    if b < n { LengthGrows(rs, b, n); }
    if n + 1 < b { LengthGrows(rs, n + 1, b); }
  }

  lemma {:induction false} NoLater(rs: seq<Record>, n: nat, end: nat, lsn: nat)
    requires n <= |rs| && Boundary(rs, lsn) && lsn <= end && (n < |rs| ==> end < 1 + Length(rs, n + 1))
    ensures lsn <= 1 + Length(rs, n)
  {
    hide Length;
    var b: nat :| b <= |rs| && lsn == 1 + Length(rs, b);
    if b < n { LengthGrows(rs, b, n); }
    if n + 1 < b { LengthGrows(rs, n + 1, b); }
  }

  /** A log whose next segment is being created is as good as one with an empty active segment. */
  lemma {:induction false} NewSegment(rs: seq<Record>, sealed: seq<Segment>, pending: bool, next: nat, fileEnd: nat,
                                      durable: nat, buf: Key, broken: bool, files: seq<File>)
    requires LogOk(rs, sealed, None, pending, next, fileEnd, durable, buf, broken)
    requires AfterCrash(sealed, None, files) && files != Files(sealed)
    ensures LogOk(rs, sealed, Some(Segment(fileEnd, [], 0)), pending, next, fileEnd, durable, buf, broken)
    ensures AfterCrash(sealed, Some(Segment(fileEnd, [], 0)), files)
  {
    hide Stream, AllFit, Boundary, Sealed;
    PieceNew(rs, fileEnd);
    var none: Key := [];
    assert none[..0] == none;
  }

  /** After a crash, reopening finds no corruption and reads back, in order and with
      contiguous LSNs, the appended records from the oldest kept one up to some
      record at or past Durable. */
  lemma {:induction false} CrashSafe(rs: seq<Record>, sealed: seq<Segment>, active: Option<Segment>, pending: bool,
                                     next: nat, fileEnd: nat, durable: nat, buf: Key, broken: bool,
                                     files: seq<File>) returns (m: nat, n: nat)
    requires LogOk(rs, sealed, active, pending, next, fileEnd, durable, buf, broken)
      && AfterCrash(sealed, active, files)
    ensures files != [] && m <= n <= |rs| && files[0].first == 1 + Length(rs, m)
    ensures ReadBack(files, |files|) == Reopened(rs[m..n], 1 + Length(rs, n)) && durable <= 1 + Length(rs, n)
    ensures var last := files[|files|-1]; last.first <= 1 + Length(rs, n) <= last.first + |last.bytes|
  {
    hide LogOk, AfterCrash, ReadBack, Length, Stream;
    if active.None? && files != Files(sealed) {
      NewSegment(rs, sealed, pending, next, fileEnd, durable, buf, broken, files);
      m, n := CutSafe(rs, sealed, Some(Segment(fileEnd, [], 0)), pending, next, fileEnd, durable, buf, broken, files);
    } else {
      m, n := CutSafe(rs, sealed, active, pending, next, fileEnd, durable, buf, broken, files);
    }
  }

  lemma {:induction false} CutSafe(rs: seq<Record>, sealed: seq<Segment>, active: Option<Segment>, pending: bool,
                                   next: nat, fileEnd: nat, durable: nat, buf: Key, broken: bool,
                                   files: seq<File>) returns (m: nat, n: nat)
    requires LogOk(rs, sealed, active, pending, next, fileEnd, durable, buf, broken)
      && AfterCrash(sealed, active, files)
    requires active.Some? || files == Files(sealed)
    ensures files != [] && m <= n <= |rs| && files[0].first == 1 + Length(rs, m)
    ensures ReadBack(files, |files|) == Reopened(rs[m..n], 1 + Length(rs, n)) && durable <= 1 + Length(rs, n)
    ensures var last := files[|files|-1]; last.first <= 1 + Length(rs, n) <= last.first + |last.bytes|
  {
    hide Length, Scan, Stream, AllFit, EncodeAll, ReadBack;
    var first := if sealed != [] then sealed[0] else active.value;
    assert Piece(rs, first);
    m :| m <= |rs| && first.first == 1 + Length(rs, m);
    if active.None? {
      n := ReadSealed(rs, sealed, files, m, |sealed|);
      assert Piece(rs, sealed[|sealed|-1]);
    } else {
      var s := active.value;
      var k: nat :| s.synced <= k <= |s.bytes| && files == Files(sealed) + [File(s.first, s.bytes[..k])];
      var a := ReadSealed(rs, sealed, files, m, |sealed|);
      n := ReadLast(rs, files, m, a, s, k);
      NoLater(rs, n, s.first + k, durable);
    }
  }

  lemma {:induction false} ReadLast(rs: seq<Record>, files: seq<File>, m: nat, a: nat, s: Segment, k: nat)
    returns (n: nat)
    requires AllFit(rs, 1) && Piece(rs, s) && k <= |s.bytes| && m <= a <= |rs| && s.first == 1 + Length(rs, a)
    requires files != [] && files[|files|-1] == File(s.first, s.bytes[..k])
      && ReadBack(files, |files| - 1) == Reopened(rs[m..a], 1 + Length(rs, a))
    ensures a <= n <= |rs| && ReadBack(files, |files|) == Reopened(rs[m..n], 1 + Length(rs, n))
    ensures n < |rs| ==> s.first + k < 1 + Length(rs, n + 1)
    ensures s.first <= 1 + Length(rs, n) <= s.first + k
  {
    hide Length, Scan, Stream, AllFit, EncodeAll;
    var used;
    n, used := ScanPiece(rs, a, k);
    Cut(Stream(rs), s.first - 1, |s.bytes|, k);
    assert rs[m..a] + rs[a..n] == rs[m..n];
  }

  // ---- the log after reopening --------------------------------------------------------------

  /** Segments found on disk, all of them synced. */
  function Whole(files: seq<File>): seq<Segment> {
    seq(|files|, i requires 0 <= i < |files| => Segment(files[i].first, files[i].bytes, |files[i].bytes|))
  }

  /** The last segment, cut at an LSN and synced. */
  function CutAt(f: File, end: nat): Segment
    requires f.first <= end <= f.first + |f.bytes|
  { Segment(f.first, f.bytes[..end - f.first], end - f.first) }

  /** The stream of the first n records. */
  lemma {:induction false} StreamShrinks(rs: seq<Record>, n: nat)
    requires n <= |rs|
    ensures Length(rs, n) <= |Stream(rs)| && Stream(rs[..n]) == Stream(rs)[..Length(rs, n)]
      && |Stream(rs[..n])| == Length(rs, n)
    ensures forall j: nat :: j <= n ==> Length(rs[..n], j) == Length(rs, j)
  {
    hide EncodeAll;
    EncodeAllSplit(rs, n, 1);
    forall j: nat | j <= n ensures Length(rs[..n], j) == Length(rs, j) { assert rs[..n][..j] == rs[..j]; }
  }

  lemma {:induction false} BoundaryShrinks(rs: seq<Record>, n: nat, lsn: nat)
    requires n <= |rs| && Boundary(rs, lsn) && lsn <= 1 + Length(rs, n)
    ensures Boundary(rs[..n], lsn)
  {
    hide Length;
    var j: nat :| j <= |rs| && lsn == 1 + Length(rs, j);
    if n < j { LengthGrows(rs, n, j); }
    StreamShrinks(rs, n);
    assert Length(rs[..n], j) == Length(rs, j);
  }

  lemma {:induction false} PieceShrinks(rs: seq<Record>, n: nat, s: Segment)
    requires n <= |rs| && Piece(rs, s) && End(s) <= 1 + Length(rs, n)
    ensures Piece(rs[..n], s)
  {
    hide Length, Stream;
    StreamShrinks(rs, n);
    BoundaryShrinks(rs, n, s.first);
    hide Boundary;
    assert Stream(rs)[..Length(rs, n)][s.first - 1..End(s) - 1] == Stream(rs)[s.first - 1..End(s) - 1];
  }

  lemma {:induction false} SealedShrinks(rs: seq<Record>, n: nat, sealed: seq<Segment>)
    requires n <= |rs| && Sealed(rs, sealed) && (sealed != [] ==> End(sealed[|sealed|-1]) <= 1 + Length(rs, n))
    ensures Sealed(rs[..n], sealed)
  {
    hide Length, Piece, Boundary, Stream;
    EndsGrow(rs, sealed);
    forall i | 0 <= i < |sealed|
      ensures Piece(rs[..n], sealed[i]) && sealed[i].synced == |sealed[i].bytes| && Boundary(rs[..n], End(sealed[i]))
    {
      assert End(sealed[i]) <= End(sealed[|sealed|-1]);
      PieceShrinks(rs, n, sealed[i]);
      BoundaryShrinks(rs, n, End(sealed[i]));
    }
  }

  lemma {:induction false} FitShrinks(rs: seq<Record>, n: nat, lsn: nat)
    requires AllFit(rs, lsn) && n <= |rs|
    ensures AllFit(rs[..n], lsn)
    decreases n
  {
    hide Encode, Fits;
    if n > 0 {
      FitShrinks(rs[1..], n - 1, lsn + Size(rs[0]));
      assert rs[..n][1..] == rs[1..][..n-1] && rs[..n][0] == rs[0];
    }
  }

  /** Sealed segments and one more that is cut at the end of record n. */
  lemma {:induction false} CutLog(rs: seq<Record>, sealed: seq<Segment>, s: Segment, k: nat, n: nat)
    requires AllFit(rs, 1) && Sealed(rs, sealed) && Piece(rs, s) && k <= |s.bytes| && n <= |rs|
    requires sealed != [] ==> s.first == End(sealed[|sealed|-1])
    requires s.first <= 1 + Length(rs, n) <= s.first + k
    ensures var end := 1 + Length(rs, n);
      LogOk(rs[..n], sealed, Some(CutAt(File(s.first, s.bytes[..k]), end)), false, end, end, end, [], false)
  {
    hide Length, Stream, AllFit, Boundary, Sealed;
    var end := 1 + Length(rs, n);
    var c := CutAt(File(s.first, s.bytes[..k]), end);
    StreamShrinks(rs, n);
    FitShrinks(rs, n, 1);
    SealedShrinks(rs, n, sealed);
    assert Boundary(rs[..n], end) by { EndBoundary(rs, n); }
    assert Piece(rs, c) by { CutPiece(rs, s, k, end); }
    PieceShrinks(rs, n, c);
    hide Piece;
    assert Stream(rs[..n])[end - 1..] == [];
  }

  lemma {:induction false} EndBoundary(rs: seq<Record>, n: nat)
    requires n <= |rs|
    ensures Boundary(rs[..n], 1 + Length(rs, n))
  {
    StreamShrinks(rs, n);
    hide Length, Stream;
    assert Length(rs[..n], n) == Length(rs, n);
  }

  lemma {:induction false} CutPiece(rs: seq<Record>, s: Segment, k: nat, end: nat)
    requires Piece(rs, s) && k <= |s.bytes| && s.first <= end <= s.first + k
    ensures Piece(rs, CutAt(File(s.first, s.bytes[..k]), end))
  {
    hide Stream, Boundary;
    Cut(Stream(rs), s.first - 1, |s.bytes|, end - s.first);
    assert s.bytes[..k][..end - s.first] == s.bytes[..end - s.first];
  }

  /** The log that Open leaves behind holds the records that were read back and
      everything before them, all of it durable: a valid log that can be appended
      to, and crash, again. */
  lemma {:induction false} ReopenedLog(rs: seq<Record>, sealed: seq<Segment>, active: Option<Segment>,
                                       pending: bool, next: nat, fileEnd: nat, durable: nat,
                                       buf: Key, broken: bool, files: seq<File>) returns (m: nat, n: nat)
    requires LogOk(rs, sealed, active, pending, next, fileEnd, durable, buf, broken)
      && AfterCrash(sealed, active, files)
    ensures files != [] && m <= n <= |rs| && durable <= 1 + Length(rs, n)
    ensures ReadBack(files, |files|) == Reopened(rs[m..n], 1 + Length(rs, n))
    ensures Continues(rs, files, n)
  {
    hide LogOk, AfterCrash, ReadBack, Length, Stream, Continues;
    if active.None? && files != Files(sealed) {
      NewSegment(rs, sealed, pending, next, fileEnd, durable, buf, broken, files);
      m, n := ReopenedCut(rs, sealed, Some(Segment(fileEnd, [], 0)), pending, next, fileEnd, durable, buf, broken,
        files);
    } else {
      m, n := ReopenedCut(rs, sealed, active, pending, next, fileEnd, durable, buf, broken, files);
    }
  }

  lemma {:induction false} ReopenedCut(rs: seq<Record>, sealed: seq<Segment>, active: Option<Segment>,
                                       pending: bool, next: nat, fileEnd: nat, durable: nat,
                                       buf: Key, broken: bool, files: seq<File>) returns (m: nat, n: nat)
    requires LogOk(rs, sealed, active, pending, next, fileEnd, durable, buf, broken)
      && AfterCrash(sealed, active, files)
    requires active.Some? || files == Files(sealed)
    ensures files != [] && m <= n <= |rs| && durable <= 1 + Length(rs, n)
    ensures ReadBack(files, |files|) == Reopened(rs[m..n], 1 + Length(rs, n))
    ensures Continues(rs, files, n)
  {
    hide Length, Stream, AllFit, ReadBack, Piece, Boundary, Sealed, Continues;
    m, n := CutSafe(rs, sealed, active, pending, next, fileEnd, durable, buf, broken, files);
    if active.None? {
      FilesSplit(sealed);
      hide Files;
      SealedCut(rs, sealed, files, n);
    } else {
      var s := active.value;
      var k: nat :| s.synced <= k <= |s.bytes| && files == Files(sealed) + [File(s.first, s.bytes[..k])];
      ActiveCut(rs, sealed, s, k, files, n);
    }
  }

  /** What Open makes of files whose last one is cut at an LSN. */
  ghost predicate Continues(rs: seq<Record>, files: seq<File>, n: nat)
    requires n <= |rs| && files != []
  {
    var last, end := files[|files|-1], 1 + Length(rs, n);
    && last.first <= end <= last.first + |last.bytes|
    && LogOk(rs[..n], Whole(files[..|files|-1]), Some(CutAt(last, end)), false, end, end, end, [], false)
  }

  lemma {:induction false} ActiveCut(rs: seq<Record>, sealed: seq<Segment>, s: Segment, k: nat, files: seq<File>,
                                     n: nat)
    requires AllFit(rs, 1) && Sealed(rs, sealed) && Piece(rs, s) && k <= |s.bytes| && n <= |rs|
    requires sealed != [] ==> s.first == End(sealed[|sealed|-1])
    requires files == Files(sealed) + [File(s.first, s.bytes[..k])] && s.first <= 1 + Length(rs, n) <= s.first + k
    ensures Continues(rs, files, n)
  {
    hide Length, Stream, AllFit, Piece, Boundary, LogOk;
    assert files[..|files|-1] == Files(sealed) && files[|files|-1] == File(s.first, s.bytes[..k]);
    WholeFiles(rs, sealed);
    CutLog(rs, sealed, s, k, n);
  }

  lemma {:induction false} FilesSplit(sealed: seq<Segment>)
    requires sealed != []
    ensures var n := |sealed| - 1; Files(sealed) == Files(sealed[..n]) + [File(sealed[n].first, sealed[n].bytes)]
  {}

  lemma {:induction false} SealedCut(rs: seq<Record>, sealed: seq<Segment>, files: seq<File>, n: nat)
    requires AllFit(rs, 1) && Sealed(rs, sealed) && sealed != [] && files == Files(sealed) && n <= |rs|
    requires var s := sealed[|sealed|-1]; s.first <= 1 + Length(rs, n) <= s.first + |s.bytes|
    ensures Continues(rs, files, n)
  {
    hide Length, Stream, AllFit, Piece, Boundary, Sealed, Files, Continues;
    var last := |sealed| - 1;
    var s, first := sealed[last], sealed[..last];
    LastSealed(rs, sealed);
    FilesSplit(sealed);
    assert s.bytes[..|s.bytes|] == s.bytes;
    ActiveCut(rs, first, s, |s.bytes|, files, n);
  }

  lemma {:induction false} LastSealed(rs: seq<Record>, sealed: seq<Segment>)
    requires Sealed(rs, sealed) && sealed != []
    ensures var last := |sealed| - 1;
      && Piece(rs, sealed[last]) && Sealed(rs, sealed[..last])
      && (sealed[..last] != [] ==> sealed[last].first == End(sealed[..last][|sealed[..last]|-1]))
  {
    hide Piece, Boundary;
    var last := |sealed| - 1;
    SealedFirst(rs, sealed, last);
    assert Follows(sealed, last);
  }

  lemma {:induction false} WholeFiles(rs: seq<Record>, sealed: seq<Segment>)
    requires Sealed(rs, sealed)
    ensures Whole(Files(sealed)) == sealed
  {
    hide Piece, Boundary;
  }

  lemma {:induction false} Cut(s: Key, a: nat, n: nat, k: nat)
    requires k <= n && a + n <= |s|
    ensures s[a..a + n][..k] == s[a..a + k]
  {}
}
