/** The disk engine's cursor: the tree merged with undo records and buffered writes. */
module MergedCursor {
  import opened Options
  import opened Bytes
  import opened Versions
  import opened MvccCursor
  import opened Snapshots

  /** An overlay item hides the tree's value of its key. */
  datatype Item = Item(key: Key, val: Payload, present: bool)

  predicate SortedItems(items: seq<Item>) { forall i, j :: 0 <= i < j < |items| ==> Less(items[i].key, items[j].key) }

  /** A tree cursor over its cells, at a position or off the ends. */
  type Cells = seq<KV>

  /** What the cursor must show: overlay items first, then the tree. */
  ghost predicate Shows(tree: Cells, items: seq<Item>, k: Key, v: Payload) {
    || (exists j :: 0 <= j < |items| && items[j] == Item(k, v, true))
    || ((exists i :: 0 <= i < |tree| && tree[i] == KV(k, v)) && forall j :: 0 <= j < |items| ==> items[j].key != k)
  }

  predicate Upward(r: Range) { r.All? || r.From? || r.After? }
  predicate Downward(r: Range) { r.All? || r.UpTo? || r.Before? }

  /** Positions b and o are where a range starts in the tree and in the overlay. */
  ghost predicate StartsAt(tree: Cells, items: seq<Item>, r: Range, b: int, o: int) {
    && 0 <= b <= |tree| && 0 <= o <= |items|
    && (forall i :: 0 <= i < |tree| ==> (In(r, tree[i].k) <==> b <= i))
    && (forall j :: 0 <= j < |items| ==> (In(r, items[j].key) <==> o <= j))
  }

  /** Positions b and o are the last ones of a range. */
  ghost predicate EndsAt(tree: Cells, items: seq<Item>, r: Range, b: int, o: int) {
    && -1 <= b < |tree| && -1 <= o < |items|
    && (forall i :: 0 <= i < |tree| ==> (In(r, tree[i].k) <==> i <= b))
    && (forall j :: 0 <= j < |items| ==> (In(r, items[j].key) <==> j <= o))
  }

  ghost predicate Lowest(tree: Cells, items: seq<Item>, r: Range, k: Key, v: Payload) {
    Shows(tree, items, k, v) && In(r, k) && forall x, y :: Shows(tree, items, x, y) && In(r, x) ==> LessEq(k, x)
  }

  ghost predicate Highest(tree: Cells, items: seq<Item>, r: Range, k: Key, v: Payload) {
    Shows(tree, items, k, v) && In(r, k) && forall x, y :: Shows(tree, items, x, y) && In(r, x) ==> LessEq(x, k)
  }

  ghost predicate Nothing(tree: Cells, items: seq<Item>, r: Range) {
    forall x, y :: Shows(tree, items, x, y) ==> !In(r, x)
  }

  // ---- merge steps ----------------------------------------------------------------------

  /** The key at the front of the two positions. */
  predicate Front(tree: Cells, items: seq<Item>, b: int, o: int, k: Key)
    requires 0 <= b <= |tree| && 0 <= o <= |items|
  {
    && (b < |tree| ==> LessEq(k, tree[b].k)) && (o < |items| ==> LessEq(k, items[o].key))
    && ((b < |tree| && tree[b].k == k) || (o < |items| && items[o].key == k))
  }

  lemma {:induction false} UpwardClosed(r: Range, a: Key, b: Key)
    requires Upward(r) && In(r, a) && LessEq(a, b)
    ensures In(r, b)
  { Laws(); hide Less; }

  /** Every key that is shown in a range is at or after the front. */
  lemma {:induction false} FrontFirst(tree: Cells, items: seq<Item>, r: Range, b: int, o: int, k: Key, x: Key,
                                      y: Payload)
    requires Ascending(tree) && SortedItems(items) && StartsAt(tree, items, r, b, o) && Front(tree, items, b, o, k)
    requires Shows(tree, items, x, y) && In(r, x)
    ensures LessEq(k, x)
  {
    Laws();
    hide Less, In;
    if j :| 0 <= j < |items| && items[j] == Item(x, y, true) {
      assert o <= j;
    } else {
      var i :| 0 <= i < |tree| && tree[i] == KV(x, y);
      assert b <= i;
    }
  }

  /** Moving past the front leaves the keys after it. */
  lemma {:induction false} StepForward(tree: Cells, items: seq<Item>, r: Range, b: int, o: int, k: Key)
    requires Upward(r) && Ascending(tree) && SortedItems(items) && StartsAt(tree, items, r, b, o)
      && Front(tree, items, b, o, k)
    ensures StartsAt(tree, items, After(k), if b < |tree| && tree[b].k == k then b + 1 else b, if o < |items|
      && items[o].key == k then o + 1 else o)
    ensures In(r, k)
  {
    Laws();
    hide Less;
    var b', o' := if b < |tree| && tree[b].k == k then b + 1 else b, if o < |items| && items[o].key == k then o + 1
      else o;
    assert In(r, k);
    forall i | 0 <= i < |tree| ensures Less(k, tree[i].k) <==> b' <= i {
      if Less(k, tree[i].k) { UpwardClosed(r, k, tree[i].k); }
    }
    forall j | 0 <= j < |items| ensures Less(k, items[j].key) <==> o' <= j {
      if Less(k, items[j].key) { UpwardClosed(r, k, items[j].key); }
    }
  }

  /** The front of two positions that look backward. */
  predicate Back(tree: Cells, items: seq<Item>, b: int, o: int, k: Key)
    requires -1 <= b < |tree| && -1 <= o < |items|
  {
    && (b >= 0 ==> LessEq(tree[b].k, k)) && (o >= 0 ==> LessEq(items[o].key, k))
    && ((b >= 0 && tree[b].k == k) || (o >= 0 && items[o].key == k))
  }

  lemma {:induction false} DownwardClosed(r: Range, a: Key, b: Key)
    requires Downward(r) && In(r, b) && LessEq(a, b)
    ensures In(r, a)
  { Laws(); hide Less; }

  lemma {:induction false} BackLast(tree: Cells, items: seq<Item>, r: Range, b: int, o: int, k: Key, x: Key, y: Payload)
    requires Ascending(tree) && SortedItems(items) && EndsAt(tree, items, r, b, o) && Back(tree, items, b, o, k)
    requires Shows(tree, items, x, y) && In(r, x)
    ensures LessEq(x, k)
  {
    Laws();
    hide Less, In;
    if j :| 0 <= j < |items| && items[j] == Item(x, y, true) {
      assert j <= o;
    } else {
      var i :| 0 <= i < |tree| && tree[i] == KV(x, y);
      assert i <= b;
    }
  }

  lemma {:induction false} StepBackward(tree: Cells, items: seq<Item>, r: Range, b: int, o: int, k: Key)
    requires Downward(r) && Ascending(tree) && SortedItems(items) && EndsAt(tree, items, r, b, o)
      && Back(tree, items, b, o, k)
    ensures EndsAt(tree, items, Before(k), if b >= 0 && tree[b].k == k then b - 1 else b, if o >= 0
      && items[o].key == k then o - 1 else o)
    ensures In(r, k)
  {
    Laws();
    hide Less;
    var b', o' := if b >= 0 && tree[b].k == k then b - 1 else b, if o >= 0 && items[o].key == k then o - 1 else o;
    assert In(r, k);
    forall i | 0 <= i < |tree| ensures Less(tree[i].k, k) <==> i <= b' {
      if Less(tree[i].k, k) { DownwardClosed(r, tree[i].k, k); }
    }
    forall j | 0 <= j < |items| ensures Less(items[j].key, k) <==> j <= o' {
      if Less(items[j].key, k) { DownwardClosed(r, items[j].key, k); }
    }
  }

  /** The value that the merge publishes for the key at hand. */
  lemma {:induction false} ShownItem(tree: Cells, items: seq<Item>, j: int)
    requires SortedItems(items) && 0 <= j < |items|
    ensures items[j].present ==> Shows(tree, items, items[j].key, items[j].val)
    ensures !items[j].present ==> forall y :: !Shows(tree, items, items[j].key, y)
  {
    Laws();
    hide Less;
    forall i | 0 <= i < |items| && items[i].key == items[j].key ensures i == j {}
    assert items[j] == Item(items[j].key, items[j].val, items[j].present);
  }

  lemma {:induction false} ShownCell(tree: Cells, items: seq<Item>, i: int)
    requires 0 <= i < |tree| && forall j :: 0 <= j < |items| ==> items[j].key != tree[i].k
    ensures Shows(tree, items, tree[i].k, tree[i].v)
  { assert tree[i] == KV(tree[i].k, tree[i].v); }

  // ---- the cursor -------------------------------------------------------------------------

  datatype Direction = Forward | Backward

  class EngineCursor {
    const t: DiskTx
    const ks: Byte
    /** The cells of the tree, which the cursor keeps from changing. */
    var tree: Cells
    var items: seq<Item>
    /** The tree cursor's position, -1 when it is off the ends. */
    var bi: int
    var bValid: bool
    var oi: int
    var key: Key
    var val: Payload
    var valid: bool
    var dir: Direction
    var closed: bool

    ghost predicate Sorted() reads this { Ascending(tree) && SortedItems(items) && -1 <= bi < |tree|
      && (bValid ==> bi >= 0) }

    /** Both positions are just beyond the current key, in the cursor's direction. */
    ghost predicate Valid() reads this {
      && Sorted()
      && (valid ==> Shows(tree, items, key, val))
      && (valid && dir == Forward ==> StartsAt(tree, items, After(key), if bValid then bi else |tree|, oi))
      && (valid && dir == Backward ==> EndsAt(tree, items, Before(key), if bValid then bi else -1, oi))
    }

    constructor (t: DiskTx, ks: Byte)
      ensures this.t == t && this.ks == ks && !valid && !closed && Valid()
    {
      this.t, this.ks := t, ks;
      tree, items, bi, bValid, oi := [], [], -1, false, 0;
      key, val, valid, dir, closed := [], [], false, Forward, false;
    }

    method ConsumeB()
      requires Sorted() && bValid
      modifies this`bi, this`bValid
      ensures Sorted() && (if bValid then bi else |tree|) == old(bi) + 1
    {
      bi := if bi + 1 < |tree| then bi + 1 else -1;
      bValid := bi >= 0;
    }

    method RetreatB()
      requires Sorted() && bValid
      modifies this`bi, this`bValid
      ensures Sorted() && (if bValid then bi else -1) == old(bi) - 1
    {
      bi := bi - 1;
      bValid := bi >= 0;
    }

    /** advanceForward: the least key shown in the range where both positions start. */
    method AdvanceForward(ghost r: Range) returns (ok: bool)
      requires Sorted() && Upward(r) && StartsAt(tree, items, r, if bValid then bi else |tree|, oi)
      modifies this`bi, this`bValid, this`oi, this`key, this`val, this`valid
      ensures Sorted() && ok == valid
      ensures ok ==>
        Lowest(tree, items, r, key, val) && StartsAt(tree, items, After(key), if bValid then bi else |tree|, oi)
      ensures !ok ==> Nothing(tree, items, r)
    {
      hide Less, In, Shows;
      Laws();
      ghost var q := r;
      while true
        invariant Sorted() && Upward(q) && StartsAt(tree, items, q, if bValid then bi else |tree|, oi)
        invariant forall x, y :: Shows(tree, items, x, y) && In(r, x) ==> In(q, x)
        invariant forall x :: In(q, x) ==> In(r, x)
        decreases |items| - oi
      {
        var hasB, hasO := bValid, 0 <= oi < |items|;
        if !hasB && !hasO {
          valid := false;
          NothingLeft(tree, items, q);
          return false;
        }
        if hasO && (!hasB || Less(items[oi].key, tree[bi].k)) {
          var item := items[oi];
          PublishItem(tree, items, r, q, if bValid then bi else |tree|, oi);
          q := After(item.key);
          oi := oi + 1;
          if !item.present { continue; }
          key, val, valid := item.key, item.val, true;
          return true;
        }
        if hasB && (!hasO || Less(tree[bi].k, items[oi].key)) {
          PublishCell(tree, items, r, q, bi, oi);
          key, val, valid := tree[bi].k, tree[bi].v, true;
          ConsumeB();
          return true;
        }
        var item := items[oi];
        PublishItem(tree, items, r, q, bi, oi);
        q := After(item.key);
        oi := oi + 1;
        ConsumeB();
        if !item.present { continue; }
        key, val, valid := item.key, item.val, true;
        return true;
      }
    }

    /** advanceBackward: the greatest key shown in the range where both positions end. */
    method AdvanceBackward(ghost r: Range) returns (ok: bool)
      requires Sorted() && Downward(r) && EndsAt(tree, items, r, if bValid then bi else -1, oi)
      modifies this`bi, this`bValid, this`oi, this`key, this`val, this`valid
      ensures Sorted() && ok == valid
      ensures ok ==>
        Highest(tree, items, r, key, val) && EndsAt(tree, items, Before(key), if bValid then bi else -1, oi)
      ensures !ok ==> Nothing(tree, items, r)
    {
      hide Less, In, Shows;
      Laws();
      ghost var q := r;
      while true
        invariant Sorted() && Downward(q) && EndsAt(tree, items, q, if bValid then bi else -1, oi)
        invariant forall x, y :: Shows(tree, items, x, y) && In(r, x) ==> In(q, x)
        invariant forall x :: In(q, x) ==> In(r, x)
        decreases oi
      {
        var hasB, hasO := bValid, 0 <= oi < |items|;
        if !hasB && !hasO {
          valid := false;
          NothingBefore(tree, items, q);
          return false;
        }
        if hasO && (!hasB || Less(tree[bi].k, items[oi].key)) {
          var item := items[oi];
          PublishItemBack(tree, items, r, q, if bValid then bi else -1, oi);
          q := Before(item.key);
          oi := oi - 1;
          if !item.present { continue; }
          key, val, valid := item.key, item.val, true;
          return true;
        }
        if hasB && (!hasO || Less(items[oi].key, tree[bi].k)) {
          PublishCellBack(tree, items, r, q, bi, oi);
          key, val, valid := tree[bi].k, tree[bi].v, true;
          RetreatB();
          return true;
        }
        var item := items[oi];
        PublishItemBack(tree, items, r, q, bi, oi);
        q := Before(item.key);
        oi := oi - 1;
        RetreatB();
        if !item.present { continue; }
        key, val, valid := item.key, item.val, true;
        return true;
      }
    }

    /** The pairs shown are exactly what the transaction sees. */
    ghost predicate Faithful() reads this, t, t.eng {
      t.gen < |t.eng.hist| && forall k, v :: Shows(tree, items, k, v) <==> Lookup(t.Sees(), Name(ks, k)) == Some(v)
    }

    method Prepare() returns (ok: bool)
      requires t.Valid()
      modifies this`tree, this`items, this`bi, this`bValid, this`valid
      ensures ok == (!closed && !t.done) && !valid
      ensures ok ==> Sorted() && Faithful()
      ensures !ok ==> tree == old(tree) && items == old(items) && bi == old(bi) && !bValid
    {
      valid, bValid := false, false;
      if closed || t.done { return false; }
      hide View, Less, Shows, TrueRecs, Recorded;
      items := Overlay(t.eng.undo, t.writes, t.gen, ks);
      tree := TreeCells(t.eng.tree, ks);
      forall k, v ensures Shows(tree, items, k, v) <==> Lookup(t.Sees(), Name(ks, k)) == Some(v) {
        ShowsView(t, ks, tree, items, k, v);
      }
      bi := -1;
      ok := true;
    }

    method Seek(target: Option<Key>) returns (ok: bool)
      requires Valid() && t.Valid()
      modifies this
      ensures Valid() && ok == valid && closed == old(closed)
      ensures closed || t.done ==> !ok
      ensures !closed && !t.done ==> Faithful()
      ensures !closed && !t.done && ok ==>
        Lowest(tree, items, if target.None? then All else From(target.value), key, val)
      ensures !closed && !t.done && !ok ==> Nothing(tree, items, if target.None? then All else From(target.value))
    {
      hide Less, Shows, TrueRecs, Recorded, View, Nothing;
      var ready := Prepare();
      if !ready { return false; }
      SeekTree(target);
      oi := 0;
      if target.Some? { oi := SearchItems(items, target.value, false); }
      dir := Forward;
      Laws();
      ok := AdvanceForward(if target.None? then All else From(target.value));
    }

    method SeekReverse(target: Option<Key>) returns (ok: bool)
      requires Valid() && t.Valid()
      modifies this
      ensures Valid() && ok == valid && closed == old(closed)
      ensures closed || t.done ==> !ok
      ensures !closed && !t.done ==> Faithful()
      ensures !closed && !t.done && ok ==>
        Highest(tree, items, if target.None? then All else UpTo(target.value), key, val)
      ensures !closed && !t.done && !ok ==> Nothing(tree, items, if target.None? then All else UpTo(target.value))
    {
      hide Less, Shows, TrueRecs, Recorded, View, Nothing;
      var ready := Prepare();
      if !ready { return false; }
      SeekTreeReverse(target);
      oi := |items| - 1;
      if target.Some? {
        var i: int := SearchItems(items, target.value, true);
        oi := i - 1;
      }
      dir := Backward;
      Laws();
      ok := AdvanceBackward(if target.None? then All else UpTo(target.value));
    }

    /** Next moves to the following shown key, whichever way the cursor came. */
    method Next() returns (ok: bool)
      requires Valid()
      modifies this
      ensures Valid() && ok == valid && tree == old(tree) && items == old(items) && closed == old(closed)
      ensures closed || t.done || !old(valid) ==> !ok
      ensures !closed && !t.done && old(valid) && ok ==> Lowest(tree, items, After(old(key)), key, val)
      ensures !closed && !t.done && old(valid) && !ok ==> Nothing(tree, items, After(old(key)))
    {
      hide Less, Shows;
      if closed || t.done || !valid { valid := false; return false; }
      if dir != Forward {
        RepositionAfter(key);
        dir := Forward;
      }
      ok := AdvanceForward(After(key));
    }

    method Prev() returns (ok: bool)
      requires Valid()
      modifies this
      ensures Valid() && ok == valid && tree == old(tree) && items == old(items) && closed == old(closed)
      ensures closed || t.done || !old(valid) ==> !ok
      ensures !closed && !t.done && old(valid) && ok ==> Highest(tree, items, Before(old(key)), key, val)
      ensures !closed && !t.done && old(valid) && !ok ==> Nothing(tree, items, Before(old(key)))
    {
      hide Less, Shows;
      if closed || t.done || !valid { valid := false; return false; }
      if dir != Backward {
        RepositionBefore(key);
        dir := Backward;
      }
      ok := AdvanceBackward(Before(key));
    }

    /** Seek of the tree cursor, and loadB. */
    method SeekTree(target: Option<Key>)
      requires Sorted()
      modifies this`bi, this`bValid
      ensures Sorted() && bValid == (bi >= 0)
      ensures var b := if bValid then bi else |tree|;
        forall i :: 0 <= i < |tree| ==> ((target.Some? ==> LessEq(target.value, tree[i].k)) <==> b <= i)
    {
      hide Less;
      Laws();
      var i := 0;
      if target.Some? { i := Search(tree, target.value, false); }
      bi := if i < |tree| then i else -1;
      bValid := bi >= 0;
    }

    method SeekTreeReverse(target: Option<Key>)
      requires Sorted()
      modifies this`bi, this`bValid
      ensures Sorted() && bValid == (bi >= 0)
      ensures forall i :: 0 <= i < |tree| ==> ((target.Some? ==> LessEq(tree[i].k, target.value)) <==> i <= bi)
    {
      hide Less;
      Laws();
      var i := |tree|;
      if target.Some? { i := Search(tree, target.value, true); }
      bi := i - 1;
      bValid := bi >= 0;
    }

    method RepositionAfter(k: Key)
      requires Sorted()
      modifies this`bi, this`bValid, this`oi
      ensures Sorted() && StartsAt(tree, items, After(k), if bValid then bi else |tree|, oi)
    {
      hide Less;
      Laws();
      SeekTree(Some(k));
      if bValid && LessEq(tree[bi].k, k) { ConsumeB(); }
      oi := SearchItems(items, k, true);
    }

    method RepositionBefore(k: Key)
      requires Sorted()
      modifies this`bi, this`bValid, this`oi
      ensures Sorted() && EndsAt(tree, items, Before(k), if bValid then bi else -1, oi)
    {
      hide Less;
      Laws();
      SeekTree(Some(k));
      if !bValid { SeekTreeReverse(None); } else { RetreatB(); }
      // the source tests here for a cell at or after k: there is none
      assert bValid ==> Less(tree[bi].k, k);
      var i: int := SearchItems(items, k, false);
      oi := i - 1;
    }

    method Close()
      modifies this`closed, this`valid, this`bValid
      ensures closed && !valid
    { closed, valid, bValid := true, false, false; }
  }

  /** sort.Search over the overlay. */
  method SearchItems(items: seq<Item>, target: Key, after: bool) returns (i: nat)
    requires SortedItems(items)
    ensures i <= |items|
    ensures forall x :: 0 <= x < i ==> if after then LessEq(items[x].key, target) else Less(items[x].key, target)
    ensures forall x :: i <= x < |items| ==> if after then Less(target, items[x].key) else LessEq(target, items[x].key)
  {
    Laws();
    hide Less;
    var j := |items|;
    i := 0;
    while i < j
      invariant i <= j <= |items|
      invariant forall x :: 0 <= x < i ==> if after then LessEq(items[x].key, target) else Less(items[x].key, target)
      invariant forall x :: j <= x < |items| ==>
        if after then Less(target, items[x].key) else LessEq(target, items[x].key)
    {
      var h := (i + j) / 2;
      var c := Compare(items[h].key, target);
      if (if after then c > 0 else c >= 0) { j := h; } else { i := h + 1; }
    }
  }

  /** The cells of one tree in key order. */
  method TreeCells(content: Content, ks: Byte) returns (cells: Cells)
    ensures Enumerates(cells, content, ks)
  {
    hide Less;
    var order := MvccCursor.Sorted(KeysIn(content, ks));
    assert forall i :: 0 <= i < |order| ==> order[i] in KeysIn(content, ks);
    cells := seq(|order|, i requires 0 <= i < |order| => KV(order[i], content[Name(ks, order[i])]));
    forall k | Name(ks, k) in content ensures KV(k, content[Name(ks, k)]) in cells {
      assert k in KeysIn(content, ks);
      var i :| 0 <= i < |order| && order[i] == k;
      assert cells[i] == KV(k, content[Name(ks, k)]);
    }
  }

  function WriteItem(k: Key, op: WriteOp): Item { Item(k, if op.del then [] else op.val, !op.del) }
  function UndoItem(k: Key, r: UndoRec): Item { Item(k, r.val, r.existed) }

  /** The overlay item of a key: its buffered write, or else its oldest undo record after the snapshot. */
  ghost predicate Overlays(undo: Undo, ws: Writes, gen: nat, n: Name, it: Option<Item>) {
    if n in ws then it == Some(WriteItem(n.key, ws[n]))
    else if it.None? then OldestAfter(Recs(undo, n), gen, None)
    else exists r :: OldestAfter(Recs(undo, n), gen, Some(r)) && it == Some(UndoItem(n.key, r))
  }

  ghost predicate OverlayOf(undo: Undo, ws: Writes, gen: nat, ks: Byte, items: seq<Item>) {
    && SortedItems(items)
    && (forall it :: it in items ==> Overlays(undo, ws, gen, Name(ks, it.key), Some(it)))
    && (forall k :: (forall j :: 0 <= j < |items| ==> items[j].key != k) ==> Overlays(undo, ws, gen, Name(ks, k), None))
  }

  /** The first loop of overlay. */
  method UndoItems(undo: Undo, gen: nat, ks: Byte) returns (found: map<Key, UndoRec>)
    ensures forall k :: OldestAfter(Recs(undo, Name(ks, k)), gen, Lookup(found, k))
  {
    found := map[];
    var todo := KeysIn(undo, ks);
    while todo != {}
      invariant todo <= KeysIn(undo, ks)
      invariant forall k :: k !in todo ==> OldestAfter(Recs(undo, Name(ks, k)), gen, Lookup(found, k))
      invariant forall k :: k in todo ==> k !in found
    {
      var k :| k in todo;
      var best := OldestUndo(undo[Name(ks, k)], gen);
      if best.Some? { found := found[k := best.value]; }
      todo := todo - {k};
    }
  }

  /** overlay: items from undo records, overwritten by those from writes, sorted by key. */
  method Overlay(undo: Undo, ws: Writes, gen: nat, ks: Byte) returns (items: seq<Item>)
    ensures OverlayOf(undo, ws, gen, ks, items)
  {
    hide Less, OldestAfter;
    var found := UndoItems(undo, gen, ks);
    var all := map k | k in found.Keys + KeysIn(ws, ks) :: if Name(ks, k) in ws then WriteItem(k, ws[Name(ks, k)])
      else UndoItem(k, found[k]);
    forall k | Name(ks, k) in ws ensures k in KeysIn(ws, ks) {}
    var order := MvccCursor.Sorted(all.Keys);
    assert forall i :: 0 <= i < |order| ==> order[i] in all;
    items := seq(|order|, i requires 0 <= i < |order| => all[order[i]]);
    OverlayBuilt(undo, ws, gen, ks, found, order, items);
  }

  lemma {:induction false} OverlayBuilt(undo: Undo, ws: Writes, gen: nat, ks: Byte, found: map<Key, UndoRec>,
                                        order: seq<Key>, items: seq<Item>)
    requires forall k :: OldestAfter(Recs(undo, Name(ks, k)), gen, Lookup(found, k))
    requires SortedKeys(order) && |items| == |order| && forall k :: k in order <==> k in found || Name(ks, k) in ws
    requires forall i :: 0 <= i < |order| ==>
      items[i] == if Name(ks, order[i]) in ws then WriteItem(order[i], ws[Name(ks, order[i])])
        else UndoItem(order[i], found[order[i]])
    ensures OverlayOf(undo, ws, gen, ks, items)
  {
    hide Less, OldestAfter;
    assert forall i :: 0 <= i < |order| ==> items[i].key == order[i];
    forall it | it in items ensures Overlays(undo, ws, gen, Name(ks, it.key), Some(it)) {
      var i :| 0 <= i < |items| && items[i] == it;
      var k := order[i];
      assert k in order && it.key == k;
      if Name(ks, k) !in ws { assert Lookup(found, k) == Some(found[k]); }
    }
    forall k | forall j :: 0 <= j < |items| ==> items[j].key != k ensures Overlays(undo, ws, gen, Name(ks, k), None) {
      assert k !in order;
      assert Lookup(found, k) == None;
    }
  }

  /** Tree and overlay together show exactly what the transaction sees. */
  lemma {:induction false} ShowsView(t: DiskTx, ks: Byte, tree: Cells, items: seq<Item>, k: Key, v: Payload)
    requires t.Valid() && !t.done && Enumerates(tree, t.eng.tree, ks)
      && OverlayOf(t.eng.undo, t.writes, t.gen, ks, items)
    ensures Shows(tree, items, k, v) <==> Lookup(t.Sees(), Name(ks, k)) == Some(v)
  {
    var n := Name(ks, k);
    hide View, Less, TrueRecs, Recorded, OldestAfter, Shows, Enumerates, SortedItems, Overlays;
    ViewAt(t.eng.hist[t.gen], t.writes, n);
    if j :| 0 <= j < |items| && items[j].key == k {
      assert items[j] in items;
      OnlyItem(tree, items, j, v);
      SeenItem(t, n, Some(items[j]));
    } else {
      SeenItem(t, n, None);
      CellShown(tree, items, t.eng.tree, ks, k, v);
    }
  }

  function Overlaid(below: Option<Payload>, it: Option<Item>): Option<Payload> {
    if it.None? then below else if it.value.present then Some(it.value.val) else None
  }

  /** The value of a key at the snapshot, from its overlay item or the tree. */
  lemma {:induction false} SeenItem(t: DiskTx, n: Name, it: Option<Item>)
    requires t.Valid() && !t.done && Overlays(t.eng.undo, t.writes, t.gen, n, it)
    ensures n in t.writes ==> it == Some(WriteItem(n.key, t.writes[n]))
    ensures n !in t.writes ==> Lookup(t.eng.hist[t.gen], n) == Overlaid(Lookup(t.eng.tree, n), it)
  {
    var e := t.eng;
    hide TrueRecs, Recorded, OldestAfter;
    if n !in t.writes {
      if it.None? { ReadIsHistory(e.undo, e.hist, e.low, n, t.gen, None); }
      else {
        var r :| OldestAfter(Recs(e.undo, n), t.gen, Some(r)) && it == Some(UndoItem(n.key, r));
        ReadIsHistory(e.undo, e.hist, e.low, n, t.gen, Some(r));
      }
    }
  }

  /** A key with an overlay item shows the item's value or nothing. */
  lemma {:induction false} OnlyItem(tree: Cells, items: seq<Item>, j: int, v: Payload)
    requires SortedItems(items) && 0 <= j < |items|
    ensures Shows(tree, items, items[j].key, v) <==> items[j].present && items[j].val == v
  {
    Laws();
    hide Less;
    forall i | 0 <= i < |items| && items[i].key == items[j].key ensures i == j {}
    assert items[j] == Item(items[j].key, items[j].val, items[j].present);
  }

  lemma {:induction false} CellShown(tree: Cells, items: seq<Item>, c: Content, ks: Byte, k: Key, v: Payload)
    requires Enumerates(tree, c, ks) && forall j :: 0 <= j < |items| ==> items[j].key != k
    ensures Shows(tree, items, k, v) <==> Lookup(c, Name(ks, k)) == Some(v)
  {
    if Name(ks, k) in c { assert KV(k, c[Name(ks, k)]) in tree; }
    if i :| 0 <= i < |tree| && tree[i] == KV(k, v) { assert tree[i] in tree; }
  }

  lemma {:induction false} NothingBefore(tree: Cells, items: seq<Item>, q: Range)
    requires EndsAt(tree, items, q, -1, -1)
    ensures Nothing(tree, items, q)
  {}

  lemma {:induction false} PublishCellBack(tree: Cells, items: seq<Item>, r: Range, q: Range, b: int, o: int)
    requires Ascending(tree) && SortedItems(items) && Downward(q) && 0 <= b < |tree| && EndsAt(tree, items, q, b, o)
    requires (forall x, y :: Shows(tree, items, x, y) && In(r, x) ==> In(q, x)) && forall x :: In(q, x) ==> In(r, x)
    requires o >= 0 ==> Less(items[o].key, tree[b].k)
    ensures Highest(tree, items, r, tree[b].k, tree[b].v) && EndsAt(tree, items, Before(tree[b].k), b - 1, o)
  {
    Laws();
    hide Less, Shows;
    var k := tree[b].k;
    StepBackward(tree, items, q, b, o, k);
    forall j | 0 <= j < |items| ensures items[j].key != k {}
    ShownCell(tree, items, b);
    forall x, y | Shows(tree, items, x, y) && In(r, x) ensures LessEq(x, k) { BackLast(tree, items, q, b, o, k, x, y); }
  }

  lemma {:induction false} PublishItemBack(tree: Cells, items: seq<Item>, r: Range, q: Range, b: int, o: int)
    requires Ascending(tree) && SortedItems(items) && Downward(q) && 0 <= o < |items| && EndsAt(tree, items, q, b, o)
    requires (forall x, y :: Shows(tree, items, x, y) && In(r, x) ==> In(q, x)) && forall x :: In(q, x) ==> In(r, x)
    requires b >= 0 ==> LessEq(tree[b].k, items[o].key)
    ensures EndsAt(tree, items, Before(items[o].key), if b >= 0 && tree[b].k == items[o].key then b - 1 else b, o - 1)
    ensures forall x :: In(Before(items[o].key), x) ==> In(r, x)
    ensures items[o].present ==> Highest(tree, items, r, items[o].key, items[o].val)
    ensures !items[o].present ==> forall x, y :: Shows(tree, items, x, y) && In(r, x) ==> In(Before(items[o].key), x)
  {
    Laws();
    hide Less, Shows;
    var k := items[o].key;
    StepBackward(tree, items, q, b, o, k);
    ShownItem(tree, items, o);
    forall x | In(Before(k), x) ensures In(r, x) { DownwardClosed(q, x, k); }
    forall x, y | Shows(tree, items, x, y) && In(r, x) ensures LessEq(x, k) { BackLast(tree, items, q, b, o, k, x, y); }
  }

  lemma {:induction false} NothingLeft(tree: Cells, items: seq<Item>, q: Range)
    requires StartsAt(tree, items, q, |tree|, |items|)
    ensures Nothing(tree, items, q)
  {}

  /** A tree cell at the front is the least key shown. */
  lemma {:induction false} PublishCell(tree: Cells, items: seq<Item>, r: Range, q: Range, b: int, o: int)
    requires Ascending(tree) && SortedItems(items) && Upward(q) && 0 <= b < |tree| && StartsAt(tree, items, q, b, o)
    requires (forall x, y :: Shows(tree, items, x, y) && In(r, x) ==> In(q, x)) && forall x :: In(q, x) ==> In(r, x)
    requires o < |items| ==> Less(tree[b].k, items[o].key)
    ensures Lowest(tree, items, r, tree[b].k, tree[b].v) && StartsAt(tree, items, After(tree[b].k), b + 1, o)
  {
    Laws();
    hide Less, Shows;
    var k := tree[b].k;
    StepForward(tree, items, q, b, o, k);
    forall j | 0 <= j < |items| ensures items[j].key != k {}
    ShownCell(tree, items, b);
    forall x, y | Shows(tree, items, x, y) && In(r, x) ensures LessEq(k, x) {
      FrontFirst(tree, items, q, b, o, k, x, y);
    }
  }

  /** An overlay item at the front is the least key shown, or hides its key. */
  lemma {:induction false} PublishItem(tree: Cells, items: seq<Item>, r: Range, q: Range, b: int, o: int)
    requires Ascending(tree) && SortedItems(items) && Upward(q) && 0 <= o < |items| && StartsAt(tree, items, q, b, o)
    requires (forall x, y :: Shows(tree, items, x, y) && In(r, x) ==> In(q, x)) && forall x :: In(q, x) ==> In(r, x)
    requires b < |tree| ==> LessEq(items[o].key, tree[b].k)
    ensures StartsAt(tree, items, After(items[o].key), if b < |tree| && tree[b].k == items[o].key then b + 1
      else b, o + 1)
    ensures forall x :: In(After(items[o].key), x) ==> In(r, x)
    ensures items[o].present ==> Lowest(tree, items, r, items[o].key, items[o].val)
    ensures !items[o].present ==> forall x, y :: Shows(tree, items, x, y) && In(r, x) ==> In(After(items[o].key), x)
  {
    Laws();
    hide Less, Shows;
    var k := items[o].key;
    StepForward(tree, items, q, b, o, k);
    ShownItem(tree, items, o);
    forall x | In(After(k), x) ensures In(r, x) { UpwardClosed(q, k, x); }
    forall x, y | Shows(tree, items, x, y) && In(r, x) ensures LessEq(k, x) {
      FrontFirst(tree, items, q, b, o, k, x, y);
    }
  }
}
