/**
 * When the pages of a changed tree have room: short keys never make an insertion
 * fail, and pages with room for two longer separators never make a deletion fail.
 */
module BTreeRoom {
  import opened Bytes
  import opened BTreeShape
  import opened BTreeSize
  import opened BTreePages
  import opened BTreeBalance
  import opened BTreeChange

  ghost function ShortSet(ps: PageSize): iset<Key> { iset k: Key | ShortKey(ps, k) }
  ghost function HalfSet(ps: PageSize): iset<Key> { iset k: Key | HalfKey(ps, k) }

  // ---- insertion ----------------------------------------------------------

  lemma {:induction false} CellsSizeTake(ps: PageSize, cells: seq<Cell>, i: nat)
    requires i < |cells|
    ensures CellsSize(ps, cells[..i+1]) == CellsSize(ps, cells[..i]) + CellSize(ps, cells[i]) + 2
  {
    assert cells[..i+1] == cells[..i] + [cells[i]];
    CellsSizeSplice(ps, cells[..i], [cells[i]]);
    CellsSizeOne(ps, cells[i]);
  }

  /** The left part of a split leaf takes at most half of the bytes or one slot;
      the right part exceeds the other half by at most one slot. */
  ghost predicate Halved(ps: PageSize, cells: seq<Cell>, c: nat, slot: nat)
    requires c <= |cells|
  {
    var total, left, right := CellsSize(ps, cells), CellsSize(ps, cells[..c]), CellsSize(ps, cells[c..]);
    (left <= total / 2 || left <= slot) && (right <= total - total / 2 + slot || right <= slot)
  }

  lemma {:induction false} CutBounds(ps: PageSize, cells: seq<Cell>, slot: nat)
    requires |cells| >= 2 && forall i :: 0 <= i < |cells| ==> CellSize(ps, cells[i]) + 2 <= slot
    ensures Halved(ps, cells, LeafCut(ps, cells), slot)
  {
    CutFromBounds(ps, cells, 0, 0, slot);
  }

  lemma {:induction false} CutFromBounds(ps: PageSize, cells: seq<Cell>, i: nat, used: nat, slot: nat)
    requires i < |cells| && |cells| >= 2 && forall i :: 0 <= i < |cells| ==> CellSize(ps, cells[i]) + 2 <= slot
    requires used == CellsSize(ps, cells[..i]) && (i == 0 || used < CellsSize(ps, cells) / 2)
    ensures Halved(ps, cells, CutFrom(ps, cells, i, used, CellsSize(ps, cells) / 2), slot)
    decreases |cells| - i
  {
    hide CellSize;
    var half, next := CellsSize(ps, cells) / 2, CellSize(ps, cells[i]) + 2;
    CellsSizeTake(ps, cells, i);
    CellsSizeAt(ps, cells, i);
    CellsSizeAt(ps, cells, i + 1);
    if i + 1 == |cells| || (i > 0 && used + next > half) {
      if i + 1 == |cells| { assert cells[i..] == [cells[i]]; CellsSizeOne(ps, cells[i]); }
    } else if used + next < half {
      CutFromBounds(ps, cells, i + 1, used + next, slot);
    }
  }

  lemma {:induction false} CellsSizeAt(ps: PageSize, cells: seq<Cell>, i: nat)
    requires i <= |cells|
    ensures CellsSize(ps, cells) == CellsSize(ps, cells[..i]) + CellsSize(ps, cells[i..])
  {
    CellsSizeSplice(ps, cells[..i], cells[i..]);
    assert cells[..i] + cells[i..] == cells;
  }

  /** A leaf that fitted, plus one short-keyed cell, splits into leaves that fit. */
  lemma {:induction false} LeafHalvesFit(ps: PageSize, size: nat, left: nat, right: nat, slot: nat)
    requires slot <= (Payload(ps) - LEAF_HEADER) / 3 && size <= Payload(ps) - LEAF_HEADER + slot
    requires left <= size / 2 || left <= slot
    requires right <= size - size / 2 + slot || right <= slot
    ensures LEAF_HEADER + left <= Payload(ps) && LEAF_HEADER + right <= Payload(ps)
  {}

  lemma {:induction false} PutSize(ps: PageSize, cells: seq<Cell>, k: Key, v: seq<Byte>)
    ensures CellsSize(ps, SeqPut(cells, k, v)) <= CellsSize(ps, cells) + CellSize(ps, Cell(k, v)) + 2
  {
    if cells == [] { assert [Cell(k, v)][1..] == []; }
    else {
      var s := SeqPut(cells, k, v);
      if Less(cells[0].key, k) { PutSize(ps, cells[1..], k, v); assert s[1..] == SeqPut(cells[1..], k, v); }
      else if cells[0].key == k { assert s[1..] == cells[1..]; }
      else { assert s[1..] == cells; }
    }
  }

  lemma {:induction false} PutKeys(cells: seq<Cell>, k: Key, v: seq<Byte>, s: iset<Key>)
    requires k in s && forall i :: 0 <= i < |cells| ==> cells[i].key in s
    ensures forall i :: 0 <= i < |SeqPut(cells, k, v)| ==> SeqPut(cells, k, v)[i].key in s
  {
    if cells != [] { PutKeys(cells[1..], k, v, s); }
  }

  function Room(ps: PageSize): nat { Payload(ps) - LEAF_HEADER }

  predicate Slots(ps: PageSize, cells: seq<Cell>) {
    forall i :: 0 <= i < |cells| ==> CellSize(ps, cells[i]) + 2 <= Room(ps) / 3
  }

  lemma {:induction false} SlotBound(ps: PageSize, cells: seq<Cell>)
    requires forall i :: 0 <= i < |cells| ==> ShortKey(ps, cells[i].key)
    ensures Slots(ps, cells)
  {
    forall i | 0 <= i < |cells| ensures CellSize(ps, cells[i]) + 2 <= Room(ps) / 3 { ShortKeyMeans(ps, cells[i].key); }
  }

  lemma {:induction false} TwoCells(ps: PageSize, cells: seq<Cell>)
    requires !LeafFits(ps, cells) && forall i :: 0 <= i < |cells| ==> HalfKey(ps, cells[i].key)
    ensures |cells| >= 2
  {
    if |cells| == 1 {
      assert cells == [cells[0]];
      CellsSizeOne(ps, cells[0]);
      HalfKeyMeans(ps, cells[0].key, cells[0].val);
    }
  }

  lemma {:induction false} TwoKeysFit(ps: PageSize, keys: seq<Key>)
    requires HalfKeys(ps, keys) && |keys| <= 2
    ensures InternalFits(ps, keys)
  {
    if |keys| == 1 { assert keys == [keys[0]]; KeysSizeOne(keys[0]); }
    if |keys| == 2 {
      assert keys == [keys[0]] + [keys[1]];
      KeysSizeSplice([keys[0]], [keys[1]]);
      KeysSizeOne(keys[0]);
      KeysSizeOne(keys[1]);
    }
  }

  /** The bound on keys is tight: above it, the page of two separators is split
      although one half then has none. */
  lemma {:induction false} LongPairSplitsEmpty(ps: PageSize, a: Key, b: Key)
    requires !HalfKey(ps, a) && !HalfKey(ps, b) && KeyAdmitted(ps, a) && KeyAdmitted(ps, b)
    ensures !InternalFits(ps, [a, b]) && [a, b][|[a, b]| / 2 + 1..] == []
    ensures InternalFits(ps, [a]) && InnerInsertOf(ps, [a, b]) == Splits(b)
  {
    assert [a, b] == [a] + [b] && [a, b][..1] == [a] && [a, b][2..] == [];
    KeysSizeSplice([a], [b]);
    KeysSizeOne(a);
    KeysSizeOne(b);
  }

  lemma {:induction false} ShortLeafSplits(ps: PageSize, cells: seq<Cell>, k: Key, v: seq<Byte>)
    requires LeafFits(ps, cells) && ShortKey(ps, k) && forall i :: 0 <= i < |cells| ==> ShortKey(ps, cells[i].key)
    ensures var o := LeafInsertOf(ps, SeqPut(cells, k, v)); !o.NoRoom? && (o.Splits? ==> ShortKey(ps, o.sep))
  {
    var all := SeqPut(cells, k, v);
    PutKeys(cells, k, v, ShortSet(ps));
    SlotBound(ps, all);
    forall i | 0 <= i < |all| ensures HalfKey(ps, all[i].key) {
      assert all[i].key in ShortSet(ps);
      ShortKeyMeans(ps, all[i].key);
    }
    if !LeafFits(ps, all) {
      TwoCells(ps, all);
      var c := LeafCut(ps, all);
      CutBounds(ps, all, Room(ps) / 3);
      PutSize(ps, cells, k, v);
      ShortKeyMeans(ps, k);
      LeafHalvesFit(ps, CellsSize(ps, all), CellsSize(ps, all[..c]), CellsSize(ps, all[c..]), Room(ps) / 3);
      assert all[c].key in ShortSet(ps);
    }
  }

  /** While all keys are short, no page is too full to be split. */
  lemma {:induction false} ShortKeysFit(ps: PageSize, p: Pages, t: Node, key: Key, val: seq<Byte>, h: nat,
                                        lo: Bound, hi: Bound)
    requires Reps(p, t) && PagesFit(ps, p) && PagesKeys(p, ShortSet(ps)) && ShortKey(ps, key) && Shape(t, h, lo, hi)
    ensures var o := InsertOf(ps, t, key, val); !o.NoRoom? && (o.Splits? ==> ShortKey(ps, o.sep))
    decreases t
  {
    assert PageFits(ps, p[t.id]) && PageKeys(p[t.id], ShortSet(ps));
    if t.Leaf? {
      assert forall i :: 0 <= i < |t.cells| ==> t.cells[i].key in ShortSet(ps);
      ShortLeafSplits(ps, t.cells, key, val);
    } else {
      var i := ChildAt(t.keys, key);
      ShortKeysFit(ps, p, t.kids[i], key, val, h - 1, LoAt(t.keys, lo, i), HiAt(t.keys, hi, i));
      var o := InsertOf(ps, t.kids[i], key, val);
      assert forall j :: 0 <= j < |t.keys| ==> t.keys[j] in ShortSet(ps);
      if o.Splits? { ShortPageSplits(ps, t.keys, i, o.sep); }
    }
  }

  lemma {:induction false} ShortPageSplits(ps: PageSize, keys: seq<Key>, i: nat, sep: Key)
    requires InternalFits(ps, keys) && ShortKeys(ps, keys) && ShortKey(ps, sep) && i <= |keys|
    ensures var o := InnerInsertOf(ps, keys[..i] + [sep] + keys[i..]); !o.NoRoom? && (o.Splits? ==> ShortKey(ps, o.sep))
  {
    var all := keys[..i] + [sep] + keys[i..];
    assert all[..i] + all[i+1..] == keys;
    forall j | 0 <= j < |all| ensures ShortKey(ps, all[j]) {
      if j < i { assert all[j] == keys[j]; } else if j > i { assert all[j] == keys[j-1]; }
    }
    InternalHalvesFit(ps, all, i);
  }

  // ---- deletion -----------------------------------------------------------

  /** Keys that are at most d bytes longer than a. */
  ghost function Lengths(a: nat, d: nat): iset<Key> { iset k: Key | a <= |k| <= a + d }

  /** The lengths of all keys and separators on the pages differ by at most d. */
  ghost predicate WithinSpread(p: Pages, d: nat) { exists a: nat :: PagesKeys(p, Lengths(a, d)) }

  /** All keys and separators on the pages have one length. */
  ghost predicate OneLength(p: Pages) { WithinSpread(p, 0) }

  /** Every internal page on the way down to key has that many bytes left. */
  ghost predicate RoomOnPath(ps: PageSize, t: Node, key: Key, room: nat)
    decreases t
  {
    t.Inner? ==>
      && InternalUsed(t.keys) + room <= Payload(ps)
      && var i := ChildAt(t.keys, key); i < |t.kids| ==> RoomOnPath(ps, t.kids[i], key, room)
  }

  ghost predicate AllIn(keys: seq<Key>, s: iset<Key>) { forall i :: 0 <= i < |keys| ==> keys[i] in s }
  ghost predicate CellKeysIn(cells: seq<Cell>, s: iset<Key>) { forall i :: 0 <= i < |cells| ==> cells[i].key in s }

  /** Every key and separator of the subtree comes from s. */
  ghost predicate KeysOn(t: Node, s: iset<Key>)
    decreases t
  {
    match t
    case Leaf(_, cells) => CellKeysIn(cells, s)
    case Inner(_, keys, kids) => AllIn(keys, s) && forall i :: 0 <= i < |kids| ==> KeysOn(kids[i], s)
  }

  lemma {:induction false} KeysOnPages(p: Pages, t: Node, s: iset<Key>)
    requires Reps(p, t) && PagesKeys(p, s)
    ensures KeysOn(t, s)
    decreases t
  {
    assert PageKeys(p[t.id], s);
    if t.Inner? {
      forall i | 0 <= i < |t.kids| ensures KeysOn(t.kids[i], s) { KeysOnPages(p, t.kids[i], s); }
    }
  }

  lemma {:induction false} FlatKeysOn(t: Node, s: iset<Key>)
    requires KeysOn(t, s)
    ensures CellKeysIn(Flat(t), s)
    decreases t, 1
  {
    if t.Inner? { FlatAllKeysOn(t.kids, s); }
  }

  lemma {:induction false} FlatAllKeysOn(kids: seq<Node>, s: iset<Key>)
    requires forall i :: 0 <= i < |kids| ==> KeysOn(kids[i], s)
    ensures CellKeysIn(FlatAll(kids), s)
    decreases kids, 0
  {
    if kids != [] { FlatKeysOn(kids[0], s); FlatAllKeysOn(kids[1..], s); }
  }

  lemma {:induction false} DelKeys(cells: seq<Cell>, k: Key, s: iset<Key>)
    requires CellKeysIn(cells, s)
    ensures CellKeysIn(SeqDel(cells, k), s)
  {
    if cells != [] && cells[0].key != k { DelKeys(cells[1..], k, s); }
  }

  lemma {:induction false} MergedKeysOn(n: Node, l: nat, s: iset<Key>)
    requires Pair(n, l) && KeysOn(n, s)
    ensures KeysOn(MergedAt(n, l), s)
  {
    assert KeysOn(n.kids[l], s) && KeysOn(n.kids[l+1], s);
    assert KeysOn(MergedKid(n, l), s);
  }

  lemma {:induction false} LentKeysOn(n: Node, l: nat, fromRight: bool, s: iset<Key>)
    requires Spare(n, l, fromRight) && KeysOn(n, s)
    ensures KeysOn(Lent(n, l, fromRight), s)
  {
    var n' := Lent(n, l, fromRight);
    LentPairKeysOn(n, l, fromRight, s);
    hide LentKids, LentKey;
    forall i | 0 <= i < |n'.kids| ensures KeysOn(n'.kids[i], s) {
      if i != l && i != l + 1 { assert n'.kids[i] == n.kids[i]; }
    }
  }

  lemma {:induction false} LentPairKeysOn(n: Node, l: nat, fromRight: bool, s: iset<Key>)
    requires Spare(n, l, fromRight) && KeysOn(n, s)
    ensures LentKey(n, l, fromRight) in s
    ensures KeysOn(LentKids(n, l, fromRight)[0], s) && KeysOn(LentKids(n, l, fromRight)[1], s)
  {
    var a, b := n.kids[l], n.kids[l+1];
    assert KeysOn(a, s) && KeysOn(b, s);
    if a.Leaf? {
      assert CellKeysIn(a.cells + b.cells, s);
    } else {
      assert KeysOn(MergedInner(n, l), s);
    }
  }

  /** Only the separators next to child idx differ. */
  predicate Near(keys: seq<Key>, keys': seq<Key>, idx: nat) {
    |keys'| == |keys| && forall i :: 0 <= i < |keys| && i != idx && i + 1 != idx ==> keys'[i] == keys[i]
  }

  function Dropped(keys: seq<Key>, i: nat): seq<Key>
    requires i < |keys|
  { keys[..i] + keys[i+1..] }

  /** What a deletion below child idx may write into a page with these
      separators: other separators next to that child, after a merge with one
      of its siblings or without one. */
  predicate Touched(keys: seq<Key>, keys': seq<Key>, idx: nat) {
    || Near(keys, keys', idx)
    || (0 < idx <= |keys| && Near(Dropped(keys, idx - 1), keys', idx - 1))
    || (idx < |keys| && Near(Dropped(keys, idx), keys', idx))
  }

  /** Whatever separators from s are written next to child idx, the page holds them. */
  ghost predicate Holds(ps: PageSize, keys: seq<Key>, idx: nat, s: iset<Key>) {
    forall keys' :: Touched(keys, keys', idx) && AllIn(keys', s) ==> InternalFits(ps, keys')
  }

  /** Every page on the way down to key holds what a deletion may write into it. */
  ghost predicate PathHolds(ps: PageSize, t: Node, key: Key, s: iset<Key>)
    decreases t
  {
    t.Inner? ==>
      var i := ChildAt(t.keys, key);
      Holds(ps, t.keys, i, s) && (i < |t.kids| ==> PathHolds(ps, t.kids[i], key, s))
  }

  ghost predicate OnPath(t: Node, key: Key, x: Node)
    decreases t
  {
    t == x || (t.Inner? && var i := ChildAt(t.keys, key); i < |t.kids| && OnPath(t.kids[i], key, x))
  }

  // The steps of a deletion at one page with separators keys.

  lemma {:induction false} RoundFits(ps: PageSize, keys: seq<Key>, n: Node, idx: nat, s: iset<Key>)
    requires n.Inner? && idx < |n.kids| && KeysOn(n, s) && Near(keys, n.keys, idx) && Holds(ps, keys, idx, s)
    ensures var o := RoundOf(ps, n, idx);
      !o.Overflow? && (o.Wrote? ==> KeysOn(o.node, s) && Near(keys, o.node.keys, idx))
  {
    hide KeysOn, Holds, InternalFits;
    if idx > 0 && CanLend(ps, n, idx - 1, false) {
      LentFits(ps, keys, n, idx, idx - 1, false, s);
    } else if idx + 1 < |n.kids| && CanLend(ps, n, idx, true) {
      LentFits(ps, keys, n, idx, idx, true, s);
    }
  }

  lemma {:induction false} LentFits(ps: PageSize, keys: seq<Key>, n: Node, idx: nat, l: nat, fromRight: bool,
                                    s: iset<Key>)
    requires CanLend(ps, n, l, fromRight) && (l == idx || l + 1 == idx)
    requires KeysOn(n, s) && Near(keys, n.keys, idx) && Holds(ps, keys, idx, s)
    ensures var n' := Lent(n, l, fromRight); InternalFits(ps, n'.keys) && KeysOn(n', s) && Near(keys, n'.keys, idx)
  {
    hide InternalFits;
    LentKeysOn(n, l, fromRight, s);
    hide LentKey, LentKids, KeysOn;
    assert Lent(n, l, fromRight).keys == n.keys[l := LentKey(n, l, fromRight)];
  }

  lemma {:induction false} LoopFits(ps: PageSize, keys: seq<Key>, n: Node, idx: nat, s: iset<Key>)
    requires n.Inner? && idx < |n.kids| && KeysOn(n, s) && Near(keys, n.keys, idx) && Holds(ps, keys, idx, s)
    ensures var o := LoopOf(ps, n, idx); o.Wrote? && KeysOn(o.node, s) && Near(keys, o.node.keys, idx)
    decreases Neighbours(n, idx)
  {
    hide KeysOn, Holds, RoundOf, Sparse, Near;
    if Sparse(ps, n.kids[idx]) {
      RoundFits(ps, keys, n, idx, s);
      var o := RoundOf(ps, n, idx);
      if o.Wrote? { LoopFits(ps, keys, o.node, idx, s); }
    }
  }

  lemma {:induction false} SettleFits(ps: PageSize, keys: seq<Key>, idx: nat, n: Node, c: nat, isRoot: bool,
                                      s: iset<Key>)
    requires n.Inner? && KeysOn(n, s) && Holds(ps, keys, idx, s)
    requires forall k :: k in s && 0 < c <= |n.keys| ==> Touched(keys, n.keys[c-1 := k], idx)
    ensures var o := SettleOf(ps, n, c, isRoot); !o.Overflow? && (o.Wrote? ==> KeysOn(o.node, s))
  {
    hide InternalFits, Touched;
    if 0 < c < |n.kids| && c <= |n.keys| && Flat(n.kids[c]) != [] {
      FlatKeysOn(n.kids[c], s);
      var k := Flat(n.kids[c])[0].key;
      assert AllIn(n.keys[c-1 := k], s) && Touched(keys, n.keys[c-1 := k], idx);
    }
  }

  lemma {:induction false} RepairFits(ps: PageSize, n: Node, idx: nat, isRoot: bool, s: iset<Key>)
    requires n.Inner? && idx < |n.kids| && KeysOn(n, s) && Holds(ps, n.keys, idx, s)
    ensures var o := RepairOf(ps, n, idx, isRoot); !o.Overflow? && (o.Wrote? ==> KeysOn(o.node, s))
  {
    hide Holds, LoopOf, SyncOf, Sparse, KeysOn, SettleOf, InternalFits, LeafFits;
    var c := Survivor(ps, n, idx);
    if !Sparse(ps, n.kids[idx]) {
      SettleFits(ps, n.keys, idx, n, c, isRoot, s);
    } else if MergesLeft(ps, n, idx) {
      MergedKeysOn(n, idx - 1, s);
      assert MergedAt(n, idx - 1).keys == Dropped(n.keys, idx - 1);
      SettleFits(ps, n.keys, idx, MergedAt(n, idx - 1), c, isRoot, s);
    } else if MergesRight(ps, n, idx) {
      MergedKeysOn(n, idx, s);
      assert MergedAt(n, idx).keys == Dropped(n.keys, idx);
      SettleFits(ps, n.keys, idx, MergedAt(n, idx), c, isRoot, s);
    } else {
      LoopFits(ps, n.keys, n, idx, s);
      SettleFits(ps, n.keys, idx, LoopOf(ps, n, idx).node, c, isRoot, s);
    }
  }

  /** A deletion rewrites at most two separators of each page on its way. */
  lemma {:induction false} RemoveFits(ps: PageSize, t: Node, key: Key, isRoot: bool, s: iset<Key>)
    requires KeysOn(t, s) && PathHolds(ps, t, key, s)
    ensures var r := RemoveOf(ps, t, key, isRoot); !r.Unfit? && (r.Removed? ==> KeysOn(r.node, s))
    decreases t
  {
    hide Holds, RepairOf;
    if t.Leaf? {
      DelKeys(t.cells, key, s);
    } else {
      var i := ChildAt(t.keys, key);
      if i < |t.kids| {
        RemoveFits(ps, t.kids[i], key, false, s);
        var below := RemoveOf(ps, t.kids[i], key, false);
        if below.Removed? { RepairFits(ps, WithKid(t, i, below.node), i, isRoot, s); }
      }
    }
  }

  /** A deletion fails only because of a page x on its way: the separators keys'
      that it would write there, all of them keys of the tree, do not fit. */
  lemma {:induction false} UnfitPage(ps: PageSize, t: Node, key: Key, isRoot: bool, s: iset<Key>)
    returns (x: Node, keys': seq<Key>)
    requires KeysOn(t, s) && RemoveOf(ps, t, key, isRoot).Unfit?
    ensures OnPath(t, key, x) && x.Inner? && Touched(x.keys, keys', ChildAt(x.keys, key))
    ensures AllIn(keys', s) && !InternalFits(ps, keys')
  {
    if PathHolds(ps, t, key, s) { RemoveFits(ps, t, key, isRoot, s); }
    x, keys' := CrowdedPage(ps, t, key, s);
  }

  lemma {:induction false} CrowdedPage(ps: PageSize, t: Node, key: Key, s: iset<Key>)
    returns (x: Node, keys': seq<Key>)
    requires !PathHolds(ps, t, key, s)
    ensures OnPath(t, key, x) && x.Inner? && Touched(x.keys, keys', ChildAt(x.keys, key))
    ensures AllIn(keys', s) && !InternalFits(ps, keys')
    decreases t
  {
    var i := ChildAt(t.keys, key);
    if !Holds(ps, t.keys, i, s) {
      x := t;
      keys' :| Touched(t.keys, keys', i) && AllIn(keys', s) && !InternalFits(ps, keys');
    } else {
      x, keys' := CrowdedPage(ps, t.kids[i], key, s);
    }
  }

  // ---- a condition on lengths ---------------------------------------------

  lemma {:induction false} KeysSizeSet(keys: seq<Key>, i: nat, k: Key)
    requires i < |keys|
    ensures KeysSize(keys[i := k]) == KeysSize(keys) + |k| - |keys[i]|
  {
    KeysSizeAround(keys, i);
    KeysSizeAround(keys[i := k], i);
    assert keys[i := k][..i] == keys[..i] && keys[i := k][i+1..] == keys[i+1..];
  }

  lemma {:induction false} NearSize(keys: seq<Key>, keys': seq<Key>, idx: nat, a: nat, d: nat)
    requires Near(keys, keys', idx) && AllIn(keys, Lengths(a, d)) && AllIn(keys', Lengths(a, d))
    ensures KeysSize(keys') <= KeysSize(keys) + 2 * d
  {
    hide KeysSize;
    var mid := if idx > 0 && idx - 1 < |keys| then keys[idx-1 := keys'[idx-1]] else keys;
    var end := if idx < |keys| then mid[idx := keys'[idx]] else mid;
    if idx > 0 && idx - 1 < |keys| { KeysSizeSet(keys, idx - 1, keys'[idx-1]); }
    if idx < |keys| { KeysSizeSet(mid, idx, keys'[idx]); }
    assert end == keys';
  }

  lemma {:induction false} DroppedSize(keys: seq<Key>, i: nat)
    requires i < |keys|
    ensures KeysSize(Dropped(keys, i)) <= KeysSize(keys)
  {
    KeysSizeAround(keys, i);
    KeysSizeSplice(keys[..i], keys[i+1..]);
  }

  /** A page with room for 2 d more bytes holds any separators whose lengths differ by at most d. */
  lemma {:induction false} RoomHolds(ps: PageSize, keys: seq<Key>, idx: nat, a: nat, d: nat)
    requires AllIn(keys, Lengths(a, d)) && InternalUsed(keys) + 2 * d <= Payload(ps)
    ensures Holds(ps, keys, idx, Lengths(a, d))
  {
    hide KeysSize;
    forall keys' | Touched(keys, keys', idx) && AllIn(keys', Lengths(a, d)) ensures InternalFits(ps, keys') {
      if Near(keys, keys', idx) {
        NearSize(keys, keys', idx, a, d);
      } else if 0 < idx <= |keys| && Near(Dropped(keys, idx - 1), keys', idx - 1) {
        DroppedSize(keys, idx - 1);
        NearSize(Dropped(keys, idx - 1), keys', idx - 1, a, d);
      } else {
        DroppedSize(keys, idx);
        NearSize(Dropped(keys, idx), keys', idx, a, d);
      }
    }
  }

  lemma {:induction false} RoomyPathHolds(ps: PageSize, t: Node, key: Key, a: nat, d: nat)
    requires KeysOn(t, Lengths(a, d)) && RoomOnPath(ps, t, key, 2 * d)
    ensures PathHolds(ps, t, key, Lengths(a, d))
    decreases t
  {
    hide Holds, InternalUsed;
    if t.Inner? {
      var i := ChildAt(t.keys, key);
      RoomHolds(ps, t.keys, i, a, d);
      if i < |t.kids| { RoomyPathHolds(ps, t.kids[i], key, a, d); }
    }
  }

  lemma {:induction false} RoomWhenFits(ps: PageSize, p: Pages, t: Node, key: Key)
    requires Reps(p, t) && PagesFit(ps, p)
    ensures RoomOnPath(ps, t, key, 0)
    decreases t
  {
    assert PageFits(ps, p[t.id]);
    if t.Inner? {
      var i := ChildAt(t.keys, key);
      if i < |t.kids| { RoomWhenFits(ps, p, t.kids[i], key); }
    }
  }

  /** When a deletion cannot fail, in terms of the stored pages. */
  lemma {:induction false} RoomSuffices(ps: PageSize, p: Pages, t: Node, key: Key)
    requires Held(p, [t], [], []) && PagesFit(ps, p)
    ensures forall d: nat :: WithinSpread(p, d) && RoomOnPath(ps, t, key, 2 * d) ==> !RemoveOf(ps, t, key, true).Unfit?
    ensures OneLength(p) || t.Leaf? ==> !RemoveOf(ps, t, key, true).Unfit?
  {
    assert Reps(p, [t][0]);
    RoomWhenFits(ps, p, t, key);
    hide RemoveOf, PagesKeys, RoomOnPath, PathHolds, KeysOn;
    forall d: nat | WithinSpread(p, d) && RoomOnPath(ps, t, key, 2 * d) ensures !RemoveOf(ps, t, key, true).Unfit? {
      var a: nat :| PagesKeys(p, Lengths(a, d));
      KeysOnPages(p, t, Lengths(a, d));
      RoomyPathHolds(ps, t, key, a, d);
      RemoveFits(ps, t, key, true, Lengths(a, d));
    }
    if t.Leaf? { LeafFitsAlways(ps, t, key); }
  }

  lemma {:induction false} LeafFitsAlways(ps: PageSize, t: Node, key: Key)
    requires t.Leaf?
    ensures !RemoveOf(ps, t, key, true).Unfit?
  {}
}
