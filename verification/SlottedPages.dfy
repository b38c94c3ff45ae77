/**
 * Leaf and internal pages as bytes: cells grow up behind a header, a directory of
 * their offsets grows down from the end of the payload.
 */
module SlottedPages {
  import opened Options
  import opened Bytes
  import opened LittleEndian
  import opened BTreeShape
  import opened BTreeSize

  // ---- the layout -----------------------------------------------------------------------------

  function Concat(cs: seq<Key>): Key { if cs == [] then [] else Concat(cs[..|cs|-1]) + cs[|cs|-1] }

  /** Where cell i starts behind a header of h bytes. */
  function Offset(h: nat, cs: seq<Key>, i: nat): nat
    requires i <= |cs|
  { h + |Concat(cs[..i])| }

  /** The directory: the slot of the first cell is the last one. */
  function Slots(h: nat, cs: seq<Key>): Key {
    if cs == [] then [] else Put(Offset(h, cs, |cs| - 1), 2) + Slots(h, cs[..|cs|-1])
  }

  function Zeros(n: nat): Key { seq(n, _ => 0) }

  /** The bytes that a header, cells and their slots take. */
  function Room(h: nat, cs: seq<Key>): nat { h + |Concat(cs)| + 2 * |cs| }

  function Layout(header: Key, cs: seq<Key>, n: nat): (b: Key)
    requires Room(|header|, cs) <= n
    ensures |b| == n
  {
    SlotsLength(|header|, cs);
    header + Concat(cs) + Zeros(n - Room(|header|, cs)) + Slots(|header|, cs)
  }

  lemma {:induction false} LayoutIs(header: Key, cs: seq<Key>, n: nat)
    requires Room(|header|, cs) <= n
    ensures Layout(header, cs, n) == header + Concat(cs) + Zeros(n - Room(|header|, cs)) + Slots(|header|, cs)
  {}

  lemma {:induction false} SlotsLength(h: nat, cs: seq<Key>)
    ensures |Slots(h, cs)| == 2 * |cs|
  { if cs != [] { SlotsLength(h, cs[..|cs|-1]); } }

  lemma {:induction false} ConcatSplit(cs: seq<Key>, i: nat)
    requires i <= |cs|
    ensures Concat(cs[..i]) <= Concat(cs)
    ensures i < |cs| ==> Concat(cs[..i]) + cs[i] <= Concat(cs)
    decreases |cs|
  {
    if i == |cs| { assert cs[..i] == cs; }
    else {
      var k := |cs| - 1;
      assert cs[..k][..i] == cs[..i];
      ConcatSplit(cs[..k], i);
      if i < k { assert cs[..k][i] == cs[i]; }
    }
  }

  lemma {:induction false} SlotAt(h: nat, cs: seq<Key>, i: nat)
    requires i < |cs|
    ensures |Slots(h, cs)| == 2 * |cs|
    ensures var b := Slots(h, cs); b[|b| - 2 * (i + 1)..|b| - 2 * i] == Put(Offset(h, cs, i), 2)
    decreases |cs|
  {
    SlotsLength(h, cs);
    var k := |cs| - 1;
    var b, tail := Slots(h, cs), Slots(h, cs[..k]);
    SlotsLength(h, cs[..k]);
    hide Put;
    if i < k {
      SlotAt(h, cs[..k], i);
      assert cs[..k][..i] == cs[..i];
      assert b[2..] == tail;
      assert b[|b| - 2 * (i + 1)..|b| - 2 * i] == tail[|tail| - 2 * (i + 1)..|tail| - 2 * i];
    } else {
      assert b[..2] == Put(Offset(h, cs, k), 2);
    }
  }

  /** Cell i and its slot in a page. */
  lemma {:induction false} CellAt(header: Key, cs: seq<Key>, n: nat, i: nat)
    requires Room(|header|, cs) <= n < 0x1_0000 && i < |cs|
    ensures var b, at := Layout(header, cs, n), Offset(|header|, cs, i);
      && |b| == n && at + |cs[i]| + 2 * |cs| <= n && b[at..at + |cs[i]|] == cs[i]
      && Get(b[n - 2 * (i + 1)..n - 2 * i]) == at
  {
    hide Concat, Slots, Put, Get, Limit, Layout, Room;
    var h := |header|;
    var b, at, slots := Layout(header, cs, n), Offset(h, cs, i), Slots(h, cs);
    ConcatSplit(cs, i);
    SlotAt(h, cs, i);
    RoomIs(h, cs);
    GetPut(at, 2) by { Limits(); }
    LayoutIs(header, cs, n);
    Pieces(header, Concat(cs), Zeros(n - Room(h, cs)), slots, b, Concat(cs[..i]), cs[i], 2 * i);
  }

  lemma {:induction false} RoomIs(h: nat, cs: seq<Key>)
    ensures Room(h, cs) == h + |Concat(cs)| + 2 * |cs|
  {}

  lemma {:induction false} Pieces(header: Key, cells: Key, gap: Key, slots: Key, b: Key, a: Key, c: Key, k: nat)
    requires b == header + cells + gap + slots && a + c <= cells && k + 2 <= |slots|
    ensures var at := |header| + |a|; at + |c| + |gap| + |slots| <= |b| && b[at..at + |c|] == c
    ensures b[|b| - k - 2..|b| - k] == slots[|slots| - k - 2..|slots| - k]
  {
    var at := |header| + |a|;
    assert cells == a + c + cells[|a| + |c|..];
    assert b == (header + a) + c + (cells[|a| + |c|..] + gap + slots);
    var front := header + cells + gap;
    forall i | |slots| - k - 2 <= i < |slots| - k ensures b[|front| + i] == slots[i] {}
  }

  lemma {:induction false} HeaderAt(header: Key, cs: seq<Key>, n: nat)
    requires Room(|header|, cs) <= n
    ensures Layout(header, cs, n)[..|header|] == header
  { hide Concat, Slots; }

  // ---- filling a page -------------------------------------------------------------------------

  /** copy: b replaces what dst holds from `at` on. */
  method Write(dst: array<Byte>, at: nat, b: Key)
    requires at + |b| <= dst.Length
    modifies dst
    ensures dst[..] == old(dst[..at]) + b + old(dst[at + |b|..])
  {
    for i := 0 to |b|
      invariant dst[..] == old(dst[..at]) + b[..i] + old(dst[at + i..])
    {
      assert dst[at + i..][1..] == old(dst[at + i + 1..]);
      dst[at + i] := b[i];
      assert b[..i + 1] == b[..i] + [b[i]];
      assert dst[..] == old(dst[..at]) + b[..i + 1] + old(dst[at + i + 1..]);
    }
    assert b[..|b|] == b;
  }

  method Clear(dst: array<Byte>)
    modifies dst
    ensures dst[..] == Zeros(dst.Length)
  {
    for i := 0 to dst.Length
      invariant forall j :: 0 <= j < i ==> dst[j] == 0
    { dst[i] := 0; }
  }

  lemma {:induction false} LayoutEmpty(header: Key, n: nat)
    requires |header| <= n
    ensures Layout(header, [], n) == header + Zeros(n - |header|)
  {}

  /** One more cell and its slot. */
  lemma {:induction false} LayoutGrows(header: Key, cs: seq<Key>, c: Key, n: nat, a: Key, b: Key)
    requires Room(|header|, cs + [c]) <= n && Room(|header|, cs) <= n
    requires Offset(|header|, cs, |cs|) + |c| + 2 * (|cs| + 1) <= n
    requires var at := Offset(|header|, cs, |cs|); var l := Layout(header, cs, n);
      |a| == n && a == l[..at] + c + l[at + |c|..]
    requires var s := n - 2 * (|cs| + 1); b == a[..s] + Put(Offset(|header|, cs, |cs|), 2) + a[s + 2..]
    ensures b == Layout(header, cs + [c], n)
  {
    var h, more := |header|, cs + [c];
    var at, cells, slots, l := Offset(h, cs, |cs|), Concat(cs), Slots(h, cs), Layout(header, cs, n);
    var gap := n - Room(h, cs);
    assert more[..|cs|] == cs && cs[..|cs|] == cs;
    SlotsLength(h, cs);
    SlotsLength(h, more);
    assert Concat(more) == cells + c && Slots(h, more) == Put(at, 2) + slots;
    assert Room(h, more) == Room(h, cs) + |c| + 2;
    hide Concat, Slots, Put, Room, Layout;
    assert l == header + cells + Zeros(gap) + slots by { LayoutIs(header, cs, n); }
    PutsCell(header + cells, c, gap, slots, l, a);
    hide Offset;
    FillsGap(header + cells + c, gap - |c|, Put(at, 2), slots, a, b);
    assert (header + cells) + c == header + (cells + c);
    LayoutIs(header, more, n);
  }

  lemma {:induction false} PutsCell(front: Key, c: Key, gap: nat, slots: Key, l: Key, a: Key)
    requires |c| <= gap && l == front + Zeros(gap) + slots && a == l[..|front|] + c + l[|front| + |c|..]
    ensures a == (front + c) + Zeros(gap - |c|) + slots
  {
    assert l[..|front|] == front && l[|front| + |c|..] == Zeros(gap - |c|) + slots;
  }

  lemma {:induction false} FillsGap(front: Key, gap: nat, slot: Key, slots: Key, a: Key, b: Key)
    requires gap >= 2 && |slot| == 2 && a == front + Zeros(gap) + slots
    requires b == a[..|front| + gap - 2] + slot + a[|front| + gap..]
    ensures b == front + Zeros(gap - 2) + (slot + slots)
  {
    assert a[..|front| + gap - 2] == front + Zeros(gap - 2) && a[|front| + gap..] == slots;
  }

  // ---- leaves -----------------------------------------------------------------------------------

  /** A value in its cell, or its length and the first of its overflow pages. */
  datatype LeafCell = Inline(key: Key, val: Key) | Overflow(key: Key, len: nat, first: nat)

  datatype StoredLeaf = StoredLeaf(left: nat, right: nat, cells: seq<LeafCell>)

  function ValueLength(c: LeafCell): nat { if c.Inline? then |c.val| else c.len }

  function CellHeader(c: LeafCell): (b: Key)
    ensures |b| == LEAF_CELL_HEADER
  { Put(|c.key|, 2) + [if c.Overflow? then 1 else 0, 0] + Put(ValueLength(c), 4) }

  function CellBytes(c: LeafCell): Key { CellHeader(c) + c.key + if c.Inline? then c.val else Put(c.first, 8) }

  function CellsBytes(cs: seq<LeafCell>): seq<Key> { seq(|cs|, i requires 0 <= i < |cs| => CellBytes(cs[i])) }

  function LeafHeader(p: StoredLeaf): (b: Key)
    ensures |b| == LEAF_HEADER
  { Put(|p.cells|, 2) + [0, 0] + Put(p.left, 8) + Put(p.right, 8) }

  predicate CellEncodes(c: LeafCell) { |c.key| <= 0xFFFF && ValueLength(c) <= 0xFFFF_FFFF }

  predicate LeafEncodes(p: StoredLeaf, n: nat) {
    Room(LEAF_HEADER, CellsBytes(p.cells)) <= n && forall i :: 0 <= i < |p.cells| ==> CellEncodes(p.cells[i])
  }

  lemma {:induction false} RoomLess(h: nat, cs: seq<Key>, i: nat)
    requires i <= |cs|
    ensures Room(h, cs[..i]) <= Room(h, cs)
  { ConcatSplit(cs, i); }

  lemma {:induction false} OffsetGrows(h: nat, cs: seq<Key>, c: Key)
    ensures Offset(h, cs + [c], |cs| + 1) == Offset(h, cs, |cs|) + |c|
  {
    assert (cs + [c])[..|cs|] == cs && (cs + [c])[..|cs| + 1] == cs + [c] && cs[..|cs|] == cs;
  }

  lemma {:induction false} WroteBoth(s: Key, at: nat, b: Key, c: Key, u: Key, v: Key)
    requires at + |b| + |c| <= |s| && u == s[..at] + b + s[at + |b|..]
    requires v == u[..at + |b|] + c + u[at + |b| + |c|..]
    ensures v == s[..at] + (b + c) + s[at + |b + c|..]
  {}

  /** Three fields in a row. */
  method WriteThree(dst: array<Byte>, at: nat, a: Key, b: Key, c: Key)
    requires at + |a + b + c| <= dst.Length
    modifies dst
    ensures dst[..] == old(dst[..at]) + (a + b + c) + old(dst[at + |a + b + c|..])
  {
    ghost var s := dst[..];
    Write(dst, at, a);
    ghost var u := dst[..];
    Write(dst, at + |a|, b);
    ghost var v := dst[..];
    WroteBoth(s, at, a, b, u, v);
    Write(dst, at + |a| + |b|, c);
    WroteBoth(s, at, a + b, c, v, dst[..]);
  }

  method WriteCell(dst: array<Byte>, at: nat, c: LeafCell)
    requires at + |CellBytes(c)| <= dst.Length
    modifies dst
    ensures dst[..] == old(dst[..at]) + CellBytes(c) + old(dst[at + |CellBytes(c)|..])
  {
    hide CellHeader, Put;
    WriteThree(dst, at, CellHeader(c), c.key, if c.Inline? then c.val else Put(c.first, 8));
  }

  /** The body of the loop of encodeLeaf. */
  method AddCell(dst: array<Byte>, off: nat, i: nat, c: LeafCell, ghost header: Key, ghost cs: seq<Key>)
    requires i == |cs| && Room(|header|, cs + [CellBytes(c)]) <= dst.Length && Room(|header|, cs) <= dst.Length
    requires off == Offset(|header|, cs, i) && dst[..] == Layout(header, cs, dst.Length)
    modifies dst
    ensures dst[..] == Layout(header, cs + [CellBytes(c)], dst.Length)
    ensures Offset(|header|, cs + [CellBytes(c)], i + 1) == off + |CellBytes(c)|
  {
    hide Concat, Slots, Put, CellBytes, Layout, Room, Offset;
    Fits(|header|, cs, CellBytes(c));
    WriteCell(dst, off, c);
    ghost var a := dst[..];
    Write(dst, dst.Length - 2 * (i + 1), Put(off, 2));
    LayoutGrows(header, cs, CellBytes(c), dst.Length, a, dst[..]);
    OffsetGrows(|header|, cs, CellBytes(c));
  }

  /** encodeLeaf. */
  method EncodeLeaf(dst: array<Byte>, p: StoredLeaf) returns (ok: bool)
    modifies dst
    ensures ok <==> LeafEncodes(p, dst.Length)
    ensures ok ==> dst[..] == Layout(LeafHeader(p), CellsBytes(p.cells), dst.Length)
  {
    hide Concat, Slots, Put, CellBytes, Layout, LeafHeader, Room, Offset;
    var n, all := dst.Length, CellsBytes(p.cells);
    if Room(LEAF_HEADER, all) > n { return false; }
    RoomLess(LEAF_HEADER, all, 0);
    Clear(dst);
    StartOffset(LEAF_HEADER, all);
    Write(dst, 0, LeafHeader(p));
    LayoutEmpty(LeafHeader(p), n);
    assert all[..0] == [];
    var off := LEAF_HEADER;
    for i := 0 to |p.cells|
      invariant Room(LEAF_HEADER, all[..i]) <= n && off == Offset(LEAF_HEADER, all[..i], i)
      invariant dst[..] == Layout(LeafHeader(p), all[..i], n)
      invariant forall j :: 0 <= j < i ==> CellEncodes(p.cells[j])
    {
      var c := p.cells[i];
      if !CellEncodes(c) { return false; }
      RoomLess(LEAF_HEADER, all, i + 1);
      assert all[..i] + [all[i]] == all[..i + 1];
      AddCell(dst, off, i, c, LeafHeader(p), all[..i]);
      off := off + |CellBytes(c)|;
    }
    assert all[..|p.cells|] == all;
    ok := true;
  }

  lemma {:induction false} StartOffset(h: nat, cs: seq<Key>)
    ensures Offset(h, cs[..0], 0) == h && h <= Room(h, cs[..0])
  {}

  lemma {:induction false} Fits(h: nat, cs: seq<Key>, c: Key)
    ensures Offset(h, cs, |cs|) + |c| + 2 * (|cs| + 1) == Room(h, cs + [c])
  {
    assert (cs + [c])[..|cs|] == cs && cs[..|cs|] == cs;
  }

  function DecodeLeafCell(src: Key, off: nat): Option<LeafCell> {
    if off < LEAF_HEADER || off + LEAF_CELL_HEADER > |src| then None
    else
      var keyLen, len, body := Get(src[off..off + 2]), Get(src[off + 4..off + 8]), off + LEAF_CELL_HEADER;
      if body + keyLen > |src| then None
      else
        var key, at := src[body..body + keyLen], body + keyLen;
        if src[off + 2] == 1 then
          if at + 8 > |src| || Get(src[at..at + 8]) == 0 then None else Some(Overflow(key, len, Get(src[at..at + 8])))
        else if src[off + 2] != 0 || at + len > |src| then None
        else Some(Inline(key, src[at..at + len]))
  }

  /** The offset in slot i. */
  function SlotOf(src: Key, i: nat): nat
    requires 2 * (i + 1) <= |src|
  { Get(src[|src| - 2 * (i + 1)..|src| - 2 * i]) }

  function DecodeLeafCells(src: Key, n: nat): Option<seq<LeafCell>>
    requires 2 * n <= |src|
  {
    if n == 0 then Some([])
    else match DecodeLeafCells(src, n - 1)
      case None => None
      case Some(cs) =>
        match DecodeLeafCell(src, SlotOf(src, n - 1)) case None => None case Some(c) => Some(cs + [c])
  }

  /** decodeLeaf. */
  method DecodeLeaf(src: Key) returns (p: Option<StoredLeaf>)
    ensures p == LeafOf(src)
  {
    hide Get, DecodeLeafCell, SlotOf;
    if |src| < LEAF_HEADER { return None; }
    var n := Get(src[..2]);
    if LEAF_HEADER + 2 * n > |src| { return None; }
    var cells := [];
    for i := 0 to n
      invariant DecodeLeafCells(src, i) == Some(cells)
    {
      var c := DecodeLeafCell(src, SlotOf(src, i));
      if c.None? {
        NoCells(src, i + 1, n);
        return None;
      }
      cells := cells + [c.value];
    }
    p := Some(StoredLeaf(Get(src[4..12]), Get(src[12..20]), cells));
  }

  lemma {:induction false} NoCells(src: Key, i: nat, n: nat)
    requires i <= n && 2 * n <= |src| && DecodeLeafCells(src, i).None?
    ensures DecodeLeafCells(src, n).None?
  { if i < n { NoCells(src, i, n - 1); } }

  function LeafOf(src: Key): Option<StoredLeaf> {
    if |src| < LEAF_HEADER || LEAF_HEADER + 2 * Get(src[..2]) > |src| then None
    else match DecodeLeafCells(src, Get(src[..2]))
      case None => None
      case Some(cs) => Some(StoredLeaf(Get(src[4..12]), Get(src[12..20]), cs))
  }

  // ---- round trip -------------------------------------------------------------------------------

  predicate Word(n: nat) { n < 0x1_0000_0000_0000_0000 }

  /** What a page of the file holds: 64-bit page ids, and no overflow pointer to page 0. */
  predicate Wellformed(p: StoredLeaf) {
    Word(p.left) && Word(p.right) && forall c :: c in p.cells && c.Overflow? ==> 0 < c.first && Word(c.first)
  }

  lemma {:induction false} SliceSame(src: Key, off: nat, b: Key, i: nat, j: nat)
    requires off + |b| <= |src| && src[off..off + |b|] == b && i <= j <= |b|
    ensures src[off + i..off + j] == b[i..j]
  {
    forall k | i <= k < j ensures src[off + k] == b[k] { assert src[off..off + |b|][k] == src[off + k]; }
  }

  /** The fields of a cell. */
  lemma {:induction false} CellFields(c: LeafCell)
    ensures var b, k := CellBytes(c), |c.key|;
      && |b| >= 8 + k && b[0..2] == Put(k, 2) && b[2..3] == [if c.Overflow? then 1 else 0]
      && b[4..8] == Put(ValueLength(c), 4) && b[8..8 + k] == c.key
      && b[8 + k..|b|] == if c.Inline? then c.val else Put(c.first, 8)
  {
    hide Put;
  }

  lemma {:induction false} CellReads(src: Key, off: nat, c: LeafCell)
    requires off >= LEAF_HEADER && off + |CellBytes(c)| <= |src| && src[off..off + |CellBytes(c)|] == CellBytes(c)
    requires CellEncodes(c) && (c.Overflow? ==> 0 < c.first && Word(c.first))
    ensures DecodeLeafCell(src, off) == Some(c)
  {
    hide Put, Get, Limit, CellBytes, DecodeLeafCell;
    var b, k := CellBytes(c), |c.key|;
    Limits();
    GetPut(k, 2);
    GetPut(ValueLength(c), 4);
    if c.Overflow? { GetPut(c.first, 8); }
    CellFields(c);
    SliceSame(src, off, b, 0, 2);
    SliceSame(src, off, b, 2, 3);
    SliceSame(src, off, b, 4, 8);
    SliceSame(src, off, b, 8, 8 + k);
    SliceSame(src, off, b, 8 + k, |b|);
    FieldsRead(src, off, c, |b|);
  }

  lemma {:induction false} FieldsRead(src: Key, off: nat, c: LeafCell, n: nat)
    requires off >= LEAF_HEADER && off + n <= |src| && n >= 8 + |c.key|
    requires Get(src[off..off + 2]) == |c.key| && src[off + 2..off + 3] == [if c.Overflow? then 1 else 0]
    requires Get(src[off + 4..off + 8]) == ValueLength(c) && src[off + 8..off + 8 + |c.key|] == c.key
    requires c.Inline? ==> src[off + 8 + |c.key|..off + n] == c.val
    requires c.Overflow? ==> n == 16 + |c.key| && Get(src[off + 8 + |c.key|..off + n]) == c.first > 0
    ensures DecodeLeafCell(src, off) == Some(c)
  {
    hide Get;
    assert src[off + 2] == src[off + 2..off + 3][0];
  }

  lemma {:induction false} CellsRead(p: StoredLeaf, n: nat, k: nat)
    requires LeafEncodes(p, n) && n < 0x1_0000 && Wellformed(p) && k <= |p.cells|
    ensures var src := Layout(LeafHeader(p), CellsBytes(p.cells), n);
      2 * k <= |src| && DecodeLeafCells(src, k) == Some(p.cells[..k])
  {
    hide Layout, LeafHeader, CellBytes, DecodeLeafCell, Concat;
    if k > 0 {
      CellsRead(p, n, k - 1);
      CellAt(LeafHeader(p), CellsBytes(p.cells), n, k - 1);
      var src := Layout(LeafHeader(p), CellsBytes(p.cells), n);
      CellReads(src, Offset(LEAF_HEADER, CellsBytes(p.cells), k - 1), p.cells[k-1]);
      assert p.cells[..k-1] + [p.cells[k-1]] == p.cells[..k];
    }
  }

  /** A leaf that fits decodes to itself. */
  lemma {:induction false} LeafRoundTrip(p: StoredLeaf, n: nat)
    requires LeafEncodes(p, n) && n < 0x1_0000 && Wellformed(p)
    ensures LeafOf(Layout(LeafHeader(p), CellsBytes(p.cells), n)) == Some(p)
  {
    hide Layout, CellBytes, DecodeLeafCells, Concat;
    var src, h := Layout(LeafHeader(p), CellsBytes(p.cells), n), LeafHeader(p);
    HeaderAt(h, CellsBytes(p.cells), n);
    CellsRead(p, n, |p.cells|);
    Limits();
    GetPut(|p.cells|, 2);
    GetPut(p.left, 8);
    GetPut(p.right, 8);
    hide Put, Get, Limit;
    assert p.cells[..|p.cells|] == p.cells;
    assert h[..2] == Put(|p.cells|, 2) && h[4..12] == Put(p.left, 8) && h[12..20] == Put(p.right, 8);
    assert src[..2] == h[..2] && src[4..12] == h[4..12] && src[12..20] == h[12..20];
  }

  // ---- sizes of the tree --------------------------------------------------------------------------

  /** How a leaf holds a cell of the tree whose overflow pages, if any, start at `first`. */
  function Held(ps: PageSize, c: Cell, first: nat): LeafCell {
    if |c.val| > ps / 4 then Overflow(c.key, |c.val|, first) else Inline(c.key, c.val)
  }

  function HeldAll(ps: PageSize, cells: seq<Cell>, firsts: seq<nat>): seq<LeafCell>
    requires |firsts| == |cells|
  { seq(|cells|, i requires 0 <= i < |cells| => Held(ps, cells[i], firsts[i])) }

  lemma {:induction false} CellsSizeSnoc(ps: PageSize, cells: seq<Cell>, c: Cell)
    ensures CellsSize(ps, cells + [c]) == CellsSize(ps, cells) + CellSize(ps, c) + 2
  {
    if cells == [] { assert (cells + [c])[1..] == []; }
    else {
      CellsSizeSnoc(ps, cells[1..], c);
      assert (cells + [c])[1..] == cells[1..] + [c];
    }
  }

  /** The byte accounting of the tree is what its leaves take. */
  lemma {:induction false} LeafRoom(ps: PageSize, cells: seq<Cell>, firsts: seq<nat>)
    requires |firsts| == |cells|
    ensures Room(LEAF_HEADER, CellsBytes(HeldAll(ps, cells, firsts))) == LeafUsed(ps, cells)
  {
    hide Put;
    if cells != [] {
      var k := |cells| - 1;
      var cs := CellsBytes(HeldAll(ps, cells, firsts));
      LeafRoom(ps, cells[..k], firsts[..k]);
      CellsSizeSnoc(ps, cells[..k], cells[k]);
      assert cells == cells[..k] + [cells[k]];
      assert cs[..k] == CellsBytes(HeldAll(ps, cells[..k], firsts[..k]));
      assert |cs[k]| == CellSize(ps, cells[k]);
    }
  }

  // ---- internal pages -----------------------------------------------------------------------------

  datatype StoredInner = StoredInner(keys: seq<Key>, kids: seq<nat>)

  function KeyCell(key: Key, kid: nat): (b: Key)
    ensures |b| == INTERNAL_CELL_HEADER + |key|
  { Put(|key|, 2) + [0, 0] + Put(kid, 8) + key }

  function KeyCells(p: StoredInner): (cs: seq<Key>)
    requires |p.kids| == |p.keys| + 1
    ensures |cs| == |p.keys|
  { seq(|p.keys|, i requires 0 <= i < |p.keys| => KeyCell(p.keys[i], p.kids[i])) }

  /** The last child is in the header. */
  function InnerHeader(p: StoredInner): (b: Key)
    requires p.kids != []
    ensures |b| == INTERNAL_HEADER
  { Put(|p.keys|, 2) + [0, 0] + Put(p.kids[|p.kids|-1], 8) }

  predicate InnerEncodes(p: StoredInner, n: nat) {
    && |p.kids| == |p.keys| + 1 && Room(INTERNAL_HEADER, KeyCells(p)) <= n
    && forall i :: 0 <= i < |p.keys| ==> |p.keys[i]| <= 0xFFFF
  }

  /** The byte accounting of the tree is what its internal pages take. */
  lemma {:induction false} InnerRoom(p: StoredInner)
    requires |p.kids| == |p.keys| + 1
    ensures Room(INTERNAL_HEADER, KeyCells(p)) == InternalUsed(p.keys)
    decreases |p.keys|
  {
    hide KeyCell;
    if p.keys != [] {
      var k := |p.keys| - 1;
      var q := StoredInner(p.keys[..k], p.kids[..k + 1]);
      InnerRoom(q);
      KeysSizeSnoc(p.keys[..k], p.keys[k]);
      assert p.keys == p.keys[..k] + [p.keys[k]] && KeyCells(p)[..k] == KeyCells(q);
    }
  }

  lemma {:induction false} KeysSizeSnoc(keys: seq<Key>, key: Key)
    ensures KeysSize(keys + [key]) == KeysSize(keys) + INTERNAL_CELL_HEADER + |key| + 2
  {
    if keys == [] { assert (keys + [key])[1..] == []; }
    else {
      KeysSizeSnoc(keys[1..], key);
      assert (keys + [key])[1..] == keys[1..] + [key];
    }
  }

  /** The body of the loop of encodeInternal. */
  method AddKey(dst: array<Byte>, off: nat, i: nat, key: Key, kid: nat, ghost header: Key, ghost cs: seq<Key>)
    requires i == |cs| && Room(|header|, cs + [KeyCell(key, kid)]) <= dst.Length && Room(|header|, cs) <= dst.Length
    requires off == Offset(|header|, cs, i) && dst[..] == Layout(header, cs, dst.Length)
    modifies dst
    ensures dst[..] == Layout(header, cs + [KeyCell(key, kid)], dst.Length)
    ensures Offset(|header|, cs + [KeyCell(key, kid)], i + 1) == off + |KeyCell(key, kid)|
  {
    hide Concat, Slots, Put, Layout, Room, Offset;
    Fits(|header|, cs, KeyCell(key, kid));
    WriteThree(dst, off, Put(|key|, 2) + [0, 0], Put(kid, 8), key);
    ghost var a := dst[..];
    Write(dst, dst.Length - 2 * (i + 1), Put(off, 2));
    LayoutGrows(header, cs, KeyCell(key, kid), dst.Length, a, dst[..]);
    OffsetGrows(|header|, cs, KeyCell(key, kid));
  }

  /** encodeInternal. */
  method EncodeInternal(dst: array<Byte>, p: StoredInner) returns (ok: bool)
    modifies dst
    ensures ok <==> InnerEncodes(p, dst.Length)
    ensures ok ==> dst[..] == Layout(InnerHeader(p), KeyCells(p), dst.Length)
  {
    hide Concat, Slots, Put, KeyCell, Layout, InnerHeader, Room, Offset;
    var n := dst.Length;
    if |p.kids| != |p.keys| + 1 { return false; }
    var all := KeyCells(p);
    if Room(INTERNAL_HEADER, all) > n { return false; }
    RoomLess(INTERNAL_HEADER, all, 0);
    Clear(dst);
    StartOffset(INTERNAL_HEADER, all);
    Write(dst, 0, InnerHeader(p));
    LayoutEmpty(InnerHeader(p), n);
    assert all[..0] == [];
    var off := INTERNAL_HEADER;
    for i := 0 to |p.keys|
      invariant Room(INTERNAL_HEADER, all[..i]) <= n && off == Offset(INTERNAL_HEADER, all[..i], i)
      invariant dst[..] == Layout(InnerHeader(p), all[..i], n)
      invariant forall j :: 0 <= j < i ==> |p.keys[j]| <= 0xFFFF
    {
      if |p.keys[i]| > 0xFFFF { return false; }
      RoomLess(INTERNAL_HEADER, all, i + 1);
      assert all[..i] + [all[i]] == all[..i + 1];
      AddKey(dst, off, i, p.keys[i], p.kids[i], InnerHeader(p), all[..i]);
      off := off + |KeyCell(p.keys[i], p.kids[i])|;
    }
    assert all[..|p.keys|] == all;
    ok := true;
  }

  /** A separator and the child to its left. */
  function DecodeKeyCell(src: Key, off: nat): Option<(Key, nat)> {
    if off < INTERNAL_HEADER || off + INTERNAL_CELL_HEADER > |src| then None
    else
      var keyLen, kid, body := Get(src[off..off + 2]), Get(src[off + 4..off + 12]), off + INTERNAL_CELL_HEADER;
      if body + keyLen > |src| || kid == 0 then None else Some((src[body..body + keyLen], kid))
  }

  function DecodeKeyCells(src: Key, n: nat): Option<(seq<Key>, seq<nat>)>
    requires 2 * n <= |src|
  {
    if n == 0 then Some(([], []))
    else match DecodeKeyCells(src, n - 1)
      case None => None
      case Some(cs) =>
        match DecodeKeyCell(src, SlotOf(src, n - 1))
        case None => None
        case Some(c) => Some((cs.0 + [c.0], cs.1 + [c.1]))
  }

  /** decodeInternal: a page without keys may have no child either. */
  function InnerOf(src: Key): Option<StoredInner> {
    if |src| < INTERNAL_HEADER || INTERNAL_HEADER + 2 * Get(src[..2]) > |src| then None
    else
      var n, last := Get(src[..2]), Get(src[4..12]);
      match DecodeKeyCells(src, n)
      case None => None
      case Some(cs) =>
        if n == 0 && last == 0 then Some(StoredInner([], []))
        else if last == 0 then None
        else Some(StoredInner(cs.0, cs.1 + [last]))
  }

  method DecodeInternal(src: Key) returns (p: Option<StoredInner>)
    ensures p == InnerOf(src)
  {
    hide Get, DecodeKeyCell, SlotOf;
    if |src| < INTERNAL_HEADER { return None; }
    var n := Get(src[..2]);
    if INTERNAL_HEADER + 2 * n > |src| { return None; }
    var last := Get(src[4..12]);
    var keys, kids := [], [];
    for i := 0 to n
      invariant DecodeKeyCells(src, i) == Some((keys, kids))
    {
      var c := DecodeKeyCell(src, SlotOf(src, i));
      if c.None? {
        NoKeys(src, i + 1, n);
        return None;
      }
      keys, kids := keys + [c.value.0], kids + [c.value.1];
    }
    if n == 0 && last == 0 { return Some(StoredInner([], [])); }
    if last == 0 { return None; }
    p := Some(StoredInner(keys, kids + [last]));
  }

  lemma {:induction false} NoKeys(src: Key, i: nat, n: nat)
    requires i <= n && 2 * n <= |src| && DecodeKeyCells(src, i).None?
    ensures DecodeKeyCells(src, n).None?
  { if i < n { NoKeys(src, i, n - 1); } }

  lemma {:induction false} KeyReads(src: Key, off: nat, key: Key, kid: nat)
    requires off >= INTERNAL_HEADER && off + |KeyCell(key, kid)| <= |src|
    requires src[off..off + |KeyCell(key, kid)|] == KeyCell(key, kid) && |key| <= 0xFFFF && 0 < kid && Word(kid)
    ensures DecodeKeyCell(src, off) == Some((key, kid))
  {
    var b := KeyCell(key, kid);
    Limits();
    GetPut(|key|, 2);
    GetPut(kid, 8);
    hide Put, Get, Limit;
    assert b[0..2] == Put(|key|, 2) && b[4..12] == Put(kid, 8) && b[12..12 + |key|] == key;
    hide KeyCell;
    SliceSame(src, off, b, 0, 2);
    SliceSame(src, off, b, 4, 12);
    SliceSame(src, off, b, 12, 12 + |key|);
  }

  lemma {:induction false} KeysRead(p: StoredInner, n: nat, k: nat)
    requires InnerEncodes(p, n) && n < 0x1_0000 && k <= |p.keys| && forall i :: i in p.kids ==> 0 < i && Word(i)
    ensures var src := Layout(InnerHeader(p), KeyCells(p), n);
      2 * k <= |src| && DecodeKeyCells(src, k) == Some((p.keys[..k], p.kids[..k]))
  {
    hide Layout, InnerHeader, KeyCell, DecodeKeyCell, Concat;
    if k > 0 {
      KeysRead(p, n, k - 1);
      CellAt(InnerHeader(p), KeyCells(p), n, k - 1);
      var src := Layout(InnerHeader(p), KeyCells(p), n);
      assert p.kids[k-1] in p.kids;
      KeyReads(src, Offset(INTERNAL_HEADER, KeyCells(p), k - 1), p.keys[k-1], p.kids[k-1]);
      assert p.keys[..k-1] + [p.keys[k-1]] == p.keys[..k] && p.kids[..k-1] + [p.kids[k-1]] == p.kids[..k];
    }
  }

  /** An internal page that fits decodes to itself. */
  lemma {:induction false} InnerRoundTrip(p: StoredInner, n: nat)
    requires InnerEncodes(p, n) && n < 0x1_0000 && forall i :: i in p.kids ==> 0 < i && Word(i)
    ensures InnerOf(Layout(InnerHeader(p), KeyCells(p), n)) == Some(p)
  {
    hide Layout, KeyCell, DecodeKeyCells, Concat;
    var src, h, last := Layout(InnerHeader(p), KeyCells(p), n), InnerHeader(p), p.kids[|p.kids|-1];
    HeaderAt(h, KeyCells(p), n);
    KeysRead(p, n, |p.keys|);
    assert last in p.kids;
    Limits();
    GetPut(|p.keys|, 2);
    GetPut(last, 8);
    hide Put, Get, Limit;
    assert p.keys[..|p.keys|] == p.keys && p.kids[..|p.keys|] + [last] == p.kids;
    assert h[..2] == Put(|p.keys|, 2) && h[4..12] == Put(last, 8);
    assert src[..2] == h[..2] && src[4..12] == h[4..12];
  }
}
