/**
 * One B+tree stored in a keyspace root slot: Get, Put and Delete over pages.
 *
 * The ghost parameters of the recursive methods carry the picture of the
 * subtree they work on; the page operations are those of the source.
 */
module BTree {
  import opened Bytes
  import opened BTreeShape
  import opened BTreeSize
  import opened BTreePages
  import opened BTreeBalance
  import opened BTreeStores
  import opened BTreeChange
  import opened BTreeRoom
  import opened BTreeExact

  /** First index below n at which a monotone predicate holds. */
  method BinSearch(n: nat, pred: nat -> bool) returns (lo: nat)
    requires forall i, j :: 0 <= i <= j < n && pred(i) ==> pred(j)
    ensures lo <= n
    ensures forall i :: 0 <= i < lo ==> !pred(i)
    ensures forall i :: lo <= i < n ==> pred(i)
  {
    lo := 0;
    var hi := n;
    while lo < hi
      invariant lo <= hi <= n
      invariant forall i :: 0 <= i < lo ==> !pred(i)
      invariant forall i :: hi <= i < n ==> pred(i)
    {
      var mid := lo + (hi - lo) / 2;
      if pred(mid) { hi := mid; } else { lo := mid + 1; }
    }
  }

  method ChildIndex(keys: seq<Key>, key: Key) returns (i: nat)
    requires SortedKeys(keys)
    ensures i <= |keys| && i == ChildAt(keys, key)
    ensures forall lo, hi :: InRange(key, lo, hi) ==> InRange(key, LoAt(keys, lo, i), HiAt(keys, hi, i))
  {
    Laws();
    var above := (j: nat) => j < |keys| && Less(key, keys[j]);
    i := BinSearch(|keys|, above);
    assert i > 0 ==> !above(i - 1);
    assert i < |keys| ==> above(i);
    assert forall j :: 0 <= j < i ==> !above(j);
    ChildAtIs(keys, key, i);
  }

  method LeafSearch(cells: seq<Cell>, key: Key) returns (i: nat, found: bool)
    requires Sorted(cells)
    ensures i <= |cells| && AllBelow(cells[..i], key) && AllFrom(cells[i..], key)
    ensures found <==> i < |cells| && cells[i].key == key
  {
    Laws();
    var from := (j: nat) => j < |cells| && !Less(cells[j].key, key);
    i := BinSearch(|cells|, from);
    forall j | 0 <= j < i ensures Less(cells[j].key, key) { assert !from(j); }
    forall j | i <= j < |cells| ensures !Less(cells[j].key, key) { assert from(j); }
    found := i < |cells| && cells[i].key == key;
  }

  /** Splits by bytes, leaving at least one cell on each side. */
  method SplitLeafCells(ps: PageSize, cells: seq<Cell>, ghost slot: nat) returns (left: seq<Cell>, right: seq<Cell>)
    ensures left + right == cells
    ensures |cells| >= 2 ==> left != [] && right != [] && |left| == LeafCut(ps, cells)
    ensures (forall i :: 0 <= i < |cells| ==> CellSize(ps, cells[i]) + 2 <= slot) ==>
      && (CellsSize(ps, left) <= CellsSize(ps, cells) / 2 || CellsSize(ps, left) <= slot || |cells| < 2)
      && (CellsSize(ps, right) <= CellsSize(ps, cells) - CellsSize(ps, cells) / 2 + slot
        || CellsSize(ps, right) <= slot)
  {
    hide CellSize;
    if |cells| < 2 { return cells, []; }
    var total := 0;
    for i := 0 to |cells|
      invariant total == CellsSize(ps, cells[..i])
    {
      total := total + CellSize(ps, cells[i]) + 2;
      CellsSizeTake(ps, cells, i);
    }
    assert cells[..|cells|] == cells;
    var half, i := total / 2, 0;
    var used: nat := 0;
    while i < |cells| - 1
      invariant 0 <= i <= |cells| - 1
      invariant CutFrom(ps, cells, i, used, half) == LeafCut(ps, cells)
    {
      var next := CellSize(ps, cells[i]) + 2;
      if i > 0 && used + next > half { break; }
      used := used + next;
      i := i + 1;
      if used >= half { break; }
    }
    if i == 0 { i := 1; }
    if i >= |cells| { i := |cells| - 1; }
    left, right := cells[..i], cells[i..];
    if forall i :: 0 <= i < |cells| ==> CellSize(ps, cells[i]) + 2 <= slot { CutBounds(ps, cells, slot); }
  }

  class Tree {
    const pageSize: PageSize
    var pages: Pages
    var pageCount: nat
    var freelist: seq<PageId>
    var root: PageId
    ghost var shape: Node
    ghost var height: nat

    /** A tree two of whose keys always fit one internal page. An empty tree owns no page. */
    ghost predicate Valid()
      reads this
    {
      && StoreInv()
      && PagesKeys(pages, HalfSet(pageSize))
      && (root != 0 ==>
            && shape.id == root && Held(pages, [shape], [], [])
            && Shape(shape, height, Open, Open) && Full(shape))
    }

    /** Every key is so short that no split fails. */
    ghost predicate Short()
      reads this
    { PagesKeys(pages, ShortSet(pageSize)) }

    /** The key-value map that the tree stands for. */
    ghost function Contents(): map<Key, seq<Byte>>
      reads this
    { if root == 0 then map[] else MapOf(Flat(shape)) }

    ghost function Owned(): multiset<PageId>
      reads this
    { if root == 0 then multiset{} else Ids(shape) }

    /** Pages of other trees in the same file stay as they are, and no page leaks. */
    twostate predicate OthersKept()
      reads this
    { KeptOutside(old(pages), old(Owned()), pages, Owned()) }

    constructor (ps: PageSize)
      ensures Valid() && Contents() == map[] && pages == map[] && root == 0
    {
      pageSize, pages, pageCount, freelist, root := ps, map[], 1, [], 0;
    }

    /** OpenTree on a file that already holds the tree t. */
    constructor Loaded(ps: PageSize, stored: Pages, count: nat, at: PageId, ghost t: Node, ghost h: nat)
      requires 0 < count && (forall x :: x in stored ==> 0 < x < count)
      requires PagesFit(ps, stored) && PagesKeys(stored, HalfSet(ps))
      requires at != 0 && t.id == at && Held(stored, [t], [], []) && Shape(t, h, Open, Open) && Full(t)
      ensures Valid() && pageSize == ps && pages == stored && pageCount == count
      ensures root == at && shape == t && height == h && Contents() == MapOf(Flat(t))
    {
      pageSize, pages, pageCount, freelist, root := ps, stored, count, [], at;
      shape, height := t, h;
    }

    /** Put. It fails for keys that checkKey rejects, in which case nothing changes,
        and when a half of a page that has to split does not fit. */
    method Put(key: Key, val: seq<Byte>) returns (ok: bool)
      requires Valid()
      requires HalfKey(pageSize, key) || !KeyAdmitted(pageSize, key)
      modifies this
      ensures ok <==>
        KeyAdmitted(pageSize, key) && (old(root) != 0 ==> !InsertOf(pageSize, old(shape), key, val).NoRoom?)
      ensures ok ==> Valid() && OthersKept() && Contents() == old(Contents())[key := val]
      ensures !KeyAdmitted(pageSize, key) ==> Valid() && pages == old(pages) && Contents() == old(Contents())
      ensures old(Short()) && ShortKey(pageSize, key) ==> ok && Short()
      ensures ok && (old(root) != 0 ==> Exact(old(shape))) ==> Exact(shape)
    {
      hide Held, Swapped, KeptOutside, PagesKeys, InsertOf, ExactRun, Exact, Shape, KidsShape, Flat, FlatAll, MapOf;
      if !KeyAdmitted(pageSize, key) {
        if ShortKey(pageSize, key) { ShortKeyMeans(pageSize, key); }
        return false;
      }
      ghost var s := KeySet(old(Short()) && ShortKey(pageSize, key));
      KeySets(pageSize, pages);
      if root == 0 { CreateRoot(key, val, s); return true; }
      ghost var was, h := shape, height;
      if old(Short()) && ShortKey(pageSize, key) { RootShortFits(pageSize, pages, shape, key, val, h); }
      var split, sep, right;
      ghost var ks, ns;
      ok, split, sep, right, ks, ns := Insert(root, key, val, was, h, Open, Open, [], [], s);
      if !ok { return; }
      RootPut(old(pages), pages, was, ns, h, key, val);
      if split {
        ghost var mid := pages;
        GrowRoot(root, sep, right, ns, s);
        KeptOutsideTransitive(old(pages), Ids(was), mid, IdsAll(ns), pages, Ids(shape));
      } else {
        shape := ns[0];
        OneRoot(ks, ns, h);
        OneExact(ns[0]);
        KeysWiden(pages, s, HalfSet(pageSize));
      }
    }

    ghost function KeySet(short: bool): iset<Key> { if short then ShortSet(pageSize) else HalfSet(pageSize) }

    method CreateRoot(key: Key, val: seq<Byte>, ghost s: iset<Key>)
      requires Valid() && root == 0 && PagesKeys(pages, s) && s <= HalfSet(pageSize) && key in s
      modifies this
      ensures Valid() && OthersKept() && Contents() == map[key := val] && PagesKeys(pages, s) && Exact(shape)
    {
      hide Held, Less;
      var cells := [Cell(key, val)];
      HalfKeyMeans(pageSize, key, val);
      CellsSizeOne(pageSize, cells[0]);
      var id := Alloc(LeafPage(0, 0, []));
      var ok := StoreLeaf(id, 0, 0, cells);
      root, shape, height := id, Leaf(id, cells), 0;
      RootLeaf(pages, id, cells[0]);
    }

    method GrowRoot(left: PageId, sep: Key, right: PageId, ghost ns: seq<Node>, ghost s: iset<Key>)
      requires StoreInv() && PagesKeys(pages, s) && s <= HalfSet(pageSize) && sep in s
      requires Held(pages, ns, [], []) && |ns| == 2 && ns[0].id == left && ns[1].id == right
      requires KidsShape([sep], ns, height, Open, Open) && AllFull(ns)
      modifies this
      ensures Valid() && root != 0 && Flat(shape) == FlatAll(ns) && PagesKeys(pages, s)
      ensures ExactRun([sep], ns) ==> Exact(shape)
      ensures KeptOutside(old(pages), IdsAll(ns), pages, Ids(shape))
    {
      hide Held, KidsShape, Ids, IdsAll, Flat, FlatAll, Less;
      KeysSizeOne(sep);
      var id := Alloc(InternalPage([], []));
      var ok := StoreInternal(id, [sep], [left, right]);
      root, shape, height := id, Inner(id, [sep], ns), height + 1;
      assert IdsOf(ns) == [left, right];
      assert pages == old(pages)[id := InternalPage([sep], [left, right])];
      RootGrown(old(pages), pages, id, sep, ns);
      OneInner(id, [sep], ns);
      One(shape);
    }

    /** The page file hands out ids that are not in use, and every page fits. */
    ghost predicate StoreInv()
      reads this
    {
      && (forall x :: x in pages ==> 0 < x < pageCount)
      && (forall x :: x in freelist ==> 0 < x < pageCount && x !in pages)
      && Distinct(freelist)
      && 0 < pageCount
      && PagesFit(pageSize, pages)
    }

    /** Reuses the freelist head, or grows the file by one page. */
    method Alloc(blank: Page) returns (id: PageId)
      requires StoreInv() && PageFits(pageSize, blank)
      modifies this`pages, this`pageCount, this`freelist
      ensures StoreInv()
      ensures id != 0 && id !in old(pages) && pages == old(pages)[id := blank]
    {
      if freelist != [] {
        id := freelist[0];
        var rest := freelist[1..];
        forall x | x in rest ensures x in freelist && x != id {
          var j :| 0 <= j < |rest| && rest[j] == x;
          assert rest[j] == freelist[j+1];
        }
        assert id in freelist;
        freelist := rest;
      } else {
        id := pageCount;
        pageCount := pageCount + 1;
      }
      pages := pages[id := blank];
    }

    method FreePage(id: PageId)
      requires StoreInv() && id in pages
      modifies this`pages, this`freelist
      ensures StoreInv() && pages == old(pages) - {id}
    {
      pages := pages - {id};
      freelist := [id] + freelist;
    }

    /** encodeLeaf refuses cells that do not fit; then nothing is written. */
    method StoreLeaf(id: PageId, left: PageId, right: PageId, cells: seq<Cell>) returns (ok: bool)
      requires StoreInv() && id in pages
      modifies this`pages
      ensures ok <==> LeafFits(pageSize, cells)
      ensures StoreInv() && pages == if ok then old(pages)[id := LeafPage(left, right, cells)] else old(pages)
    {
      ok := LeafFits(pageSize, cells);
      if ok { pages := pages[id := LeafPage(left, right, cells)]; }
    }

    method StoreInternal(id: PageId, keys: seq<Key>, children: seq<PageId>) returns (ok: bool)
      requires StoreInv() && id in pages
      modifies this`pages
      ensures ok <==> |children| == |keys| + 1 && InternalFits(pageSize, keys)
      ensures StoreInv() && pages == if ok then old(pages)[id := InternalPage(keys, children)] else old(pages)
    {
      ok := |children| == |keys| + 1 && InternalFits(pageSize, keys);
      if ok { pages := pages[id := InternalPage(keys, children)]; }
    }

    method InsertLeaf(id: PageId, key: Key, val: seq<Byte>, ghost t: Node, ghost lo: Bound, ghost hi: Bound,
                      ghost pre: seq<PageId>, ghost post: seq<PageId>, ghost s: iset<Key>)
      returns (ok: bool, split: bool, sep: Key, right: PageId, ghost ks: seq<Key>, ghost ns: seq<Node>)
      requires StoreInv() && t.Leaf? && t.id == id && Held(pages, [t], pre, post)
      requires Shape(t, 0, lo, hi) && Full(t) && InRange(key, lo, hi)
      requires PagesKeys(pages, s) && key in s && s <= HalfSet(pageSize)
      modifies this`pages, this`pageCount, this`freelist
      ensures var o := InsertOf(pageSize, t, key, val); (ok <==> !o.NoRoom?) && (ok ==> o == Split(split, sep))
      ensures ok ==> StoreInv() && PagesKeys(pages, s) && Replaced(old(pages), pages, [t], ns, pre, post)
      ensures ok ==> KidsShape(ks, ns, 0, lo, hi) && AllFull(ns) && FlatAll(ns) == SeqPut(Flat(t), key, val)
      ensures ok ==> |ns| == (if split then 2 else 1) && ns[0].id == id
      ensures ok && split ==> ks == [sep] && ns[1].id == right && sep in s
      ensures ok && Exact(t) ==> ExactRun(ks, ns)
    {
      hide Held, Swapped, Replaced, KidsShape, Less, SeqPut, InnerInsertOf, ChildAt, CellsSize;
      HeldLeaf(pages, id, t.cells, pre, post);
      var page := pages[id];
      var cell := Cell(key, val);
      HalfKeyMeans(pageSize, key, val);
      assert CellAdmitted(pageSize, cell);
      var idx, found := LeafSearch(page.cells, key);
      var cells := if found then page.cells[idx := cell] else page.cells[..idx] + [cell] + page.cells[idx..];
      assert PageFits(pageSize, page);
      NewCells(pageSize, page.cells, idx, cells, key, val, lo, hi, s);
      hide Sorted, CellsIn, CellSize;
      if LeafFits(pageSize, cells) {
        ok := StoreLeaf(id, page.left, page.right, cells);
        split, sep, right, ks, ns := false, [], 0, [], [Leaf(id, cells)];
        LeafRewritten(old(pages), pages, id, t.cells, cells, pre, post);
        OneLeaf(id, cells, lo, hi);
        LeafRunExact(ns[0]);
      } else {
        ok, sep, right, ns := SplitLeaf(id, page, cells, t.cells, lo, hi, pre, post, s);
        split, ks := true, [sep];
      }
    }

    method SplitLeaf(id: PageId, page: Page, cells: seq<Cell>, ghost was: seq<Cell>, ghost lo: Bound, ghost hi: Bound,
                     ghost pre: seq<PageId>, ghost post: seq<PageId>, ghost s: iset<Key>)
      returns (ok: bool, sep: Key, right: PageId, ghost ns: seq<Node>)
      requires StoreInv() && Held(pages, [Leaf(id, was)], pre, post) && id in pages && pages[id] == page
        && page.LeafPage?
      requires Sorted(cells) && CellsIn(cells, lo, hi) && PagesKeys(pages, s) && forall i :: 0 <= i < |cells| ==>
        cells[i].key in s
      requires !LeafFits(pageSize, cells) && |cells| >= 2
      modifies this`pages, this`pageCount, this`freelist
      ensures ok <==> var c := LeafCut(pageSize, cells);
        LeafFits(pageSize, cells[..c]) && LeafFits(pageSize, cells[c..])
      ensures ok ==> StoreInv() && PagesKeys(pages, s) && Replaced(old(pages), pages, [Leaf(id, was)], ns, pre, post)
      ensures ok ==>
        |ns| == 2 && ns[0].id == id && ns[1].id == right && sep == cells[LeafCut(pageSize, cells)].key && sep in s
      ensures ok ==> KidsShape([sep], ns, 0, lo, hi) && AllFull(ns) && FlatAll(ns) == cells && ExactRun([sep], ns)
    {
      hide Held, Swapped;
      ns, sep := [], [];
      var l, e := SplitLeafCells(pageSize, cells, 0);
      assert l == cells[..|l|] && e == cells[|l|..];
      right := Alloc(LeafPage(0, 0, []));
      ok := StoreLeaf(id, page.left, right, l);
      if ok { ok := StoreLeaf(right, id, page.right, e); }
      if !ok { FreePage(right); return; }
      SiblingOf(old(pages), id, was, pre, post);
      if page.right != 0 { RelinkLeft(page.right, right); }
      sep := e[0].key;
      assert sep == cells[|l|].key;
      ns := [Leaf(id, l), Leaf(right, e)];
      LeafSplitDone(old(pages), pages, id, was, right, l, e, lo, hi, pre, post, s);
      LeafPairExact(ns[0], ns[1]);
    }

    method Insert(id: PageId, key: Key, val: seq<Byte>, ghost t: Node, ghost h: nat, ghost lo: Bound, ghost hi: Bound,
                  ghost pre: seq<PageId>, ghost post: seq<PageId>, ghost s: iset<Key>)
      returns (ok: bool, split: bool, sep: Key, right: PageId, ghost ks: seq<Key>, ghost ns: seq<Node>)
      requires StoreInv() && t.id == id && Held(pages, [t], pre, post)
      requires Shape(t, h, lo, hi) && Full(t) && InRange(key, lo, hi)
      requires PagesKeys(pages, s) && key in s && s <= HalfSet(pageSize)
      modifies this`pages, this`pageCount, this`freelist
      decreases t, 1
      ensures var o := InsertOf(pageSize, t, key, val); (ok <==> !o.NoRoom?) && (ok ==> o == Split(split, sep))
      ensures ok ==> StoreInv() && PagesKeys(pages, s) && Replaced(old(pages), pages, [t], ns, pre, post)
      ensures ok ==> KidsShape(ks, ns, h, lo, hi) && AllFull(ns) && FlatAll(ns) == SeqPut(Flat(t), key, val)
      ensures ok ==> |ns| == (if split then 2 else 1) && ns[0].id == id
      ensures ok && split ==> ks == [sep] && ns[1].id == right && sep in s
      ensures ok && Exact(t) ==> ExactRun(ks, ns)
    {
      assert Reps(pages, [t][0]);
      if pages[id].LeafPage? {
        ok, split, sep, right, ks, ns := InsertLeaf(id, key, val, t, lo, hi, pre, post, s);
      } else {
        ok, split, sep, right, ks, ns := InsertBelow(id, key, val, t, h, lo, hi, pre, post, s);
      }
    }

    /** The internal-page case of insert. */
    method InsertBelow(id: PageId, key: Key, val: seq<Byte>, ghost t: Node, ghost h: nat, ghost lo: Bound,
                       ghost hi: Bound,
                  ghost pre: seq<PageId>, ghost post: seq<PageId>, ghost s: iset<Key>)
      returns (ok: bool, split: bool, sep: Key, right: PageId, ghost ks: seq<Key>, ghost ns: seq<Node>)
      requires StoreInv() && t.Inner? && t.id == id && Held(pages, [t], pre, post)
      requires Shape(t, h, lo, hi) && Full(t) && InRange(key, lo, hi)
      requires PagesKeys(pages, s) && key in s && s <= HalfSet(pageSize)
      modifies this`pages, this`pageCount, this`freelist
      decreases t, 0
      ensures var o := InsertOf(pageSize, t, key, val); (ok <==> !o.NoRoom?) && (ok ==> o == Split(split, sep))
      ensures ok ==> StoreInv() && PagesKeys(pages, s) && Replaced(old(pages), pages, [t], ns, pre, post)
      ensures ok ==> KidsShape(ks, ns, h, lo, hi) && AllFull(ns) && FlatAll(ns) == SeqPut(Flat(t), key, val)
      ensures ok ==> |ns| == (if split then 2 else 1) && ns[0].id == id
      ensures ok && split ==> ks == [sep] && ns[1].id == right && sep in s
      ensures ok && Exact(t) ==> ExactRun(ks, ns)
    {
      hide Held, Swapped, Replaced, PagesKeys, PagesFit, Less, SeqPut, LeafIdsAll, Shape, KidsShape, Flat, FlatAll,
        InRange;
      hide InnerInsertOf, LeafInsertOf, ChildAt, AllFull, Exact, ExactRun;
      ParentPage(pages, t, h, lo, hi, pre, post);
      var node := pages[id];
      var idx := ChildIndex(node.keys, key);
      ghost var c, lo', hi' := t.kids[idx], LoAt(t.keys, lo, idx), HiAt(t.keys, hi, idx);
      ghost var cks, cns;
      ChildReady(pages, t, idx, h, lo, hi, pre, post);
      KidExact(t, idx);
      ok, split, sep, right, cks, cns := Insert(node.children[idx], key, val, c, h - 1, lo', hi',
                                            pre + LeafIdsAll(t.kids[..idx]), LeafIdsAll(t.kids[idx+1..]) + post, s);
      if !ok { ks, ns := [], []; return; }
      ChildInserted(t, idx, cks, cns, h, lo, hi, key, val);
      if Exact(t) { ChildPutExact(t, idx, cks, cns, key, val, h - 1, lo, hi); }
      if split {
        ok, split, sep, right, ks, ns :=
          InsertSeparator(id, idx, sep, right, t, cns, old(pages), h, lo, hi, pre, post, s);
      } else {
        ks, ns := [], [Inner(id, t.keys, t.kids[..idx] + cns + t.kids[idx+1..])];
        NoSplit(old(pages), pages, t, idx, cks, cns, h, lo, hi, key, val, pre, post);
        OneExact(ns[0]);
        assert cks == [] && t.keys[..idx] + cks + t.keys[idx..] == t.keys;
      }
    }

    /** The part of insert that follows a split child. */
    method InsertSeparator(id: PageId, idx: nat, sep0: Key, right0: PageId, ghost t: Node, ghost cns: seq<Node>,
                           ghost was: Pages,
                           ghost h: nat, ghost lo: Bound, ghost hi: Bound, ghost pre: seq<PageId>,
                           ghost post: seq<PageId>, ghost s: iset<Key>)
      returns (ok: bool, split: bool, sep: Key, right: PageId, ghost ks: seq<Key>, ghost ns: seq<Node>)
      requires StoreInv() && t.Inner? && t.id == id && Held(was, [t], pre, post) && h > 0 && idx < |t.kids|
      requires Replaced(was, pages, [t.kids[idx]], cns, pre + LeafIdsAll(t.kids[..idx]),
        LeafIdsAll(t.kids[idx+1..]) + post)
      requires |cns| == 2 && cns[0].id == t.kids[idx].id && cns[1].id == right0 && |t.kids| == |t.keys| + 1
      requires KidsShape(t.keys[..idx] + [sep0] + t.keys[idx..], t.kids[..idx] + cns + t.kids[idx+1..], h - 1, lo, hi)
      requires AllFull(t.kids[..idx] + cns + t.kids[idx+1..])
      requires PagesKeys(pages, s) && sep0 in s && s <= HalfSet(pageSize)
      modifies this`pages, this`pageCount, this`freelist
      ensures var o := InnerInsertOf(pageSize, t.keys[..idx] + [sep0] + t.keys[idx..]);
        (ok <==> !o.NoRoom?) && (ok ==> o == Split(split, sep))
      ensures ok ==> StoreInv() && PagesKeys(pages, s) && Replaced(was, pages, [t], ns, pre, post)
      ensures ok ==> KidsShape(ks, ns, h, lo, hi) && AllFull(ns)
      ensures ok ==> FlatAll(ns) == FlatAll(t.kids[..idx] + cns + t.kids[idx+1..])
      ensures ok ==> |ns| == (if split then 2 else 1) && ns[0].id == id
      ensures ok && split ==> ks == [sep] && ns[1].id == right && sep in s
      ensures ok && ExactRun(t.keys[..idx] + [sep0] + t.keys[idx..], t.kids[..idx] + cns + t.kids[idx+1..]) ==>
        ExactRun(ks, ns)
    {
      hide Swapped, Held;
      ghost var a, c, b := t.kids[..idx], t.kids[idx], t.kids[idx+1..];
      ghost var kids := a + cns + b;
      assert t.kids == a + [c] + b;
      ParentKept(was, pages, t, a, c, b, cns, pre, post);
      var node := pages[id];
      var keys := node.keys[..idx] + [sep0] + node.keys[idx..];
      var children := node.children[..idx+1] + [right0] + node.children[idx+1..];
      assert PageKeys(node, s) && PageFits(pageSize, node);
      SeparatorIn(node.keys, t.kids, idx, sep0, right0, cns, s);
      ghost var mid := pages[id := InternalPage(keys, children)];
      ReplaceParts(was, pages, mid, t, a, [c], b, cns, keys, pre, post);
      OneInner(id, keys, kids);
      if InternalFits(pageSize, keys) {
        ok := StoreInternal(id, keys, children);
        split, sep, right, ks, ns := false, [], 0, [], [Inner(id, keys, kids)];
        KidsOne(ns[0], h, lo, hi);
        OneExact(ns[0]);
      } else {
        ok, sep, right, ns := SplitInternal(id, keys, children, kids, mid, h, lo, hi, pre, post, s);
        split, ks := true, [sep];
        if ok { ReplacedTransitive(was, mid, pages, [t], [Inner(id, keys, kids)], ns, pre, post); }
      }
    }

    /** Splits by count; the middle separator moves up. The page is not split if a half does not fit. */
    method SplitInternal(id: PageId, keys: seq<Key>, children: seq<PageId>, ghost kids: seq<Node>, ghost was: Pages,
                         ghost h: nat, ghost lo: Bound, ghost hi: Bound, ghost pre: seq<PageId>,
                         ghost post: seq<PageId>, ghost s: iset<Key>)
      returns (ok: bool, sep: Key, right: PageId, ghost ns: seq<Node>)
      requires StoreInv() && id in pages && was == pages[id := InternalPage(keys, children)]
      requires children == IdsOf(kids) && Held(was, [Inner(id, keys, kids)], pre, post)
      requires h > 0 && |kids| == |keys| + 1 && KidsShape(keys, kids, h - 1, lo, hi) && AllFull(kids)
      requires !InternalFits(pageSize, keys)
      requires PagesKeys(pages, s) && (forall i :: 0 <= i < |keys| ==> keys[i] in s) && s <= HalfSet(pageSize)
      modifies this`pages, this`pageCount, this`freelist
      ensures ok <==>
        var mid := |keys| / 2; InternalFits(pageSize, keys[..mid]) && InternalFits(pageSize, keys[mid+1..])
      ensures ok ==> StoreInv() && PagesKeys(pages, s) && Replaced(was, pages, [Inner(id, keys, kids)], ns, pre, post)
      ensures ok ==> KidsShape([sep], ns, h, lo, hi) && AllFull(ns) && FlatAll(ns) == FlatAll(kids)
      ensures ok ==> |ns| == 2 && ns[0].id == id && ns[1].id == right && sep == keys[|keys|/2] && sep in s
      ensures ok && ExactRun(keys, kids) ==> ExactRun([sep], ns)
    {
      hide Held, Swapped, Replaced, KidsShape, FlatAll, ExactRun, PagesKeys;
      ThreeKeys(pageSize, keys);
      ns := [];
      var mid := |keys| / 2;
      sep := keys[mid];
      right := Alloc(InternalPage([], []));
      ok := StoreInternal(id, keys[..mid], children[..mid+1]);
      if ok { ok := StoreInternal(right, keys[mid+1..], children[mid+1..]); }
      if !ok { FreePage(right); return; }
      ns := [Inner(id, keys[..mid], kids[..mid+1]), Inner(right, keys[mid+1..], kids[mid+1..])];
      InternalSplitDone(was, old(pages), pages, id, right, keys, kids, mid, h, lo, hi, pre, post, s);
      if ExactRun(keys, kids) { SplitExact(id, right, keys, kids, mid); }
    }

    // ---- deletion ---------------------------------------------------------

    /** A parent page whose children keep their order. Which children are full is said apart. */
    ghost predicate ParentInv(n: Node, h: nat, lo: Bound, hi: Bound, pre: seq<PageId>, post: seq<PageId>, s: iset<Key>)
      reads this
    {
      && StoreInv() && n.Inner? && |n.kids| == |n.keys| + 1 && Held(pages, [n], pre, post)
        && KidsShape(n.keys, n.kids, h, lo, hi)
      && PagesKeys(pages, s)
    }

    method MergeLeaves(id: PageId, l: nat, ghost n: Node, ghost h: nat, ghost lo: Bound, ghost hi: Bound,
                       ghost pre: seq<PageId>, ghost post: seq<PageId>, ghost s: iset<Key>)
      returns (merged: bool, ghost n': Node)
      requires ParentInv(n, h, lo, hi, pre, post, s) && n.id == id && Pair(n, l) && n.kids[l].Leaf?
      modifies this`pages, this`freelist
      ensures ParentInv(n', h, lo, hi, pre, post, s) && Rebalanced(old(pages), pages, n, n', h, lo, hi, pre, post)
      ensures merged <==> LeafFits(pageSize, n.kids[l].cells + n.kids[l+1].cells)
      ensures if merged then n' == MergedAt(n, l)
              else n' == n && pages == old(pages) && freelist == old(freelist)
    {
      PairHeld(pages, n, l, pre, post);
      var parent := pages[id];
      var leftID, rightID := parent.children[l], parent.children[l+1];
      var left, right := pages[leftID], pages[rightID];
      var combined := left.cells + right.cells;
      if !LeafFits(pageSize, combined) {
        RebalancedSelf(pages, n, h, lo, hi, pre, post);
        return false, n;
      }
      merged := true;
      var ok := StoreLeaf(leftID, left.left, right.right, combined);
      MergeSibling(old(pages), n, l, pre, post);
      if right.right != 0 { RelinkLeft(right.right, leftID); }
      assert PageFits(pageSize, parent);
      KeysSizeAround(parent.keys, l);
      KeysSizeSplice(parent.keys[..l], parent.keys[l+1..]);
      ok := StoreInternal(id, parent.keys[..l] + parent.keys[l+1..], parent.children[..l+1] + parent.children[l+2..]);
      FreePage(rightID);
      n' := Inner(id, SpliceKeys(n, l, []), SpliceKids(n, l, [Leaf(leftID, combined)]));
      LeavesMerged(old(pages), pages, n, l, h, lo, hi, pre, post, s);
    }

    method MergeInternal(id: PageId, l: nat, ghost n: Node, ghost h: nat, ghost lo: Bound, ghost hi: Bound,
                         ghost pre: seq<PageId>, ghost post: seq<PageId>, ghost s: iset<Key>)
      returns (merged: bool, ghost n': Node)
      requires ParentInv(n, h, lo, hi, pre, post, s) && n.id == id && Pair(n, l) && n.kids[l].Inner?
      modifies this`pages, this`freelist
      ensures ParentInv(n', h, lo, hi, pre, post, s) && Rebalanced(old(pages), pages, n, n', h, lo, hi, pre, post)
      ensures merged <==> InternalFits(pageSize, n.kids[l].keys + [n.keys[l]] + n.kids[l+1].keys)
      ensures if merged then n' == MergedAt(n, l)
              else n' == n && pages == old(pages) && freelist == old(freelist)
    {
      PairHeld(pages, n, l, pre, post);
      var parent := pages[id];
      var leftID, rightID := parent.children[l], parent.children[l+1];
      var left, right := pages[leftID], pages[rightID];
      var keys := left.keys + [parent.keys[l]] + right.keys;
      if !InternalFits(pageSize, keys) {
        RebalancedSelf(pages, n, h, lo, hi, pre, post);
        return false, n;
      }
      merged := true;
      InnerPair(n, l, h, lo, hi);
      var ok := StoreInternal(leftID, keys, left.children + right.children);
      assert PageFits(pageSize, parent);
      KeysSizeAround(parent.keys, l);
      KeysSizeSplice(parent.keys[..l], parent.keys[l+1..]);
      ok := StoreInternal(id, parent.keys[..l] + parent.keys[l+1..], parent.children[..l+1] + parent.children[l+2..]);
      FreePage(rightID);
      n' := Inner(id, SpliceKeys(n, l, []), SpliceKids(n, l, [MergedInner(n, l)]));
      InnersMerged(old(pages), pages, n, l, h, lo, hi, pre, post, s);
    }

    /** Moves one cell across the separator. A longer separator may not fit the
        parent page any more; then the page is not written and ok is false. */
    method BorrowLeaf(id: PageId, l: nat, fromRight: bool, ghost n: Node, ghost h: nat, ghost lo: Bound,
                      ghost hi: Bound,
                      ghost pre: seq<PageId>, ghost post: seq<PageId>, ghost s: iset<Key>)
      returns (ok: bool, moved: bool, ghost n': Node)
      requires ParentInv(n, h, lo, hi, pre, post, s) && n.id == id && Pair(n, l) && n.kids[l].Leaf?
      modifies this`pages
      ensures ok ==>
        ParentInv(n', h, lo, hi, pre, post, s) && Rebalanced(old(pages), pages, n, n', h, lo, hi, pre, post)
      ensures ok && !moved ==> n' == n && pages == old(pages)
      ensures BorrowOf(pageSize, n, l, fromRight) == Reached(ok, moved, n')
    {
      hide Held, Swapped, KidsShape, LeafFits, InternalFits;
      PairHeld(pages, n, l, pre, post);
      var parent := pages[id];
      var leftID, rightID := parent.children[l], parent.children[l+1];
      var left, right := pages[leftID], pages[rightID];
      assert PageFits(pageSize, left) && PageFits(pageSize, right);
      var lcells, rcells;
      moved, lcells, rcells := ShiftCells(pageSize, left.cells, right.cells, fromRight);
      assert moved <==> CanLend(pageSize, n, l, fromRight);
      if moved {
        LentLeaves(n, l, lcells, rcells, fromRight);
        ok, n' := StoreBorrowedLeaves(id, l, lcells, rcells, n, h, lo, hi, pre, post, s);
      } else {
        RebalancedSelf(pages, n, h, lo, hi, pre, post);
        ok, n' := true, n;
      }
    }

    method StoreBorrowedLeaves(id: PageId, l: nat, lcells: seq<Cell>, rcells: seq<Cell>, ghost n: Node,
                               ghost h: nat, ghost lo: Bound, ghost hi: Bound,
                               ghost pre: seq<PageId>, ghost post: seq<PageId>, ghost s: iset<Key>)
      returns (ok: bool, ghost n': Node)
      requires ParentInv(n, h, lo, hi, pre, post, s) && n.id == id && Pair(n, l) && n.kids[l].Leaf?
      requires LeafFits(pageSize, lcells) && LeafFits(pageSize, rcells) && lcells != [] && rcells != []
      requires lcells + rcells == n.kids[l].cells + n.kids[l+1].cells
      modifies this`pages
      ensures ok <==> InternalFits(pageSize, n.keys[l := rcells[0].key])
      ensures ok ==>
        ParentInv(n', h, lo, hi, pre, post, s) && Rebalanced(old(pages), pages, n, n', h, lo, hi, pre, post)
      ensures ok ==>
        n' == Inner(id, SpliceKeys(n, l, [rcells[0].key]),
          SpliceKids(n, l, [Leaf(n.kids[l].id, lcells), Leaf(n.kids[l+1].id, rcells)]))
    {
      hide Held, Swapped, KidsShape, LeafFits, InternalFits;
      PairHeld(pages, n, l, pre, post);
      var parent := pages[id];
      var leftID, rightID := parent.children[l], parent.children[l+1];
      var left, right := pages[leftID], pages[rightID];
      ok := StoreLeaf(leftID, left.left, left.right, lcells);
      ok := StoreLeaf(rightID, right.left, right.right, rcells);
      ok := StoreInternal(id, parent.keys[l := rcells[0].key], parent.children);
      n' := Inner(id, SpliceKeys(n, l, [rcells[0].key]),
        SpliceKids(n, l, [Leaf(leftID, lcells), Leaf(rightID, rcells)]));
      hide SpliceKeys, SpliceKids, Replaced, Rebalanced;
      if ok { LeavesBorrowed(old(pages), pages, n, l, lcells, rcells, h, lo, hi, pre, post, s); }
    }

    method BorrowInternal(id: PageId, l: nat, fromRight: bool, ghost n: Node, ghost h: nat, ghost lo: Bound,
                          ghost hi: Bound,
                          ghost pre: seq<PageId>, ghost post: seq<PageId>, ghost s: iset<Key>)
      returns (ok: bool, moved: bool, ghost n': Node)
      requires ParentInv(n, h, lo, hi, pre, post, s) && n.id == id && Pair(n, l) && n.kids[l].Inner?
      modifies this`pages
      ensures ok ==>
        ParentInv(n', h, lo, hi, pre, post, s) && Rebalanced(old(pages), pages, n, n', h, lo, hi, pre, post)
      ensures ok && !moved ==> n' == n && pages == old(pages)
      ensures BorrowOf(pageSize, n, l, fromRight) == Reached(ok, moved, n')
    {
      hide Held, Swapped, KidsShape, LeafFits, InternalFits;
      PairHeld(pages, n, l, pre, post);
      var parent := pages[id];
      var leftID, rightID := parent.children[l], parent.children[l+1];
      var left, right := pages[leftID], pages[rightID];
      assert PageFits(pageSize, left) && PageFits(pageSize, right);
      var lkeys, lkids, sep, rkeys, rkids;
      ghost var m;
      moved, lkeys, lkids, sep, rkeys, rkids, m :=
        ShiftSeparator(pageSize, left, parent.keys[l], right, fromRight, n, l);
      assert moved <==> CanLend(pageSize, n, l, fromRight);
      if moved {
        LentInners(n, l, m, fromRight);
        ok, n' := StoreBorrowedInners(id, l, lkeys, lkids, sep, rkeys, rkids, m, n, h, lo, hi, pre, post, s);
      } else {
        RebalancedSelf(pages, n, h, lo, hi, pre, post);
        ok, n' := true, n;
      }
    }

    method StoreBorrowedInners(id: PageId, l: nat, lkeys: seq<Key>, lkids: seq<PageId>, sep: Key, rkeys: seq<Key>,
                               rkids: seq<PageId>, ghost m: nat,
                               ghost n: Node, ghost h: nat, ghost lo: Bound, ghost hi: Bound,
                               ghost pre: seq<PageId>, ghost post: seq<PageId>, ghost s: iset<Key>)
      returns (ok: bool, ghost n': Node)
      requires ParentInv(n, h, lo, hi, pre, post, s) && n.id == id && Pair(n, l) && n.kids[l].Inner?
      requires InternalFits(pageSize, lkeys) && InternalFits(pageSize, rkeys)
      requires m < |MergedInner(n, l).keys|
      requires var j := MergedInner(n, l);
        && lkeys == j.keys[..m] && sep == j.keys[m] && rkeys == j.keys[m+1..]
        && lkids == IdsOf(j.kids[..m+1]) && rkids == IdsOf(j.kids[m+1..])
      modifies this`pages
      ensures ok <==> InternalFits(pageSize, n.keys[l := sep])
      ensures ok ==>
        ParentInv(n', h, lo, hi, pre, post, s) && Rebalanced(old(pages), pages, n, n', h, lo, hi, pre, post)
      ensures ok ==> n' == Inner(id, SpliceKeys(n, l, [sep]), SpliceKids(n, l, Resplit(n, l, m)))
    {
      hide Held, Swapped, KidsShape, InternalFits;
      PairHeld(pages, n, l, pre, post);
      var parent := pages[id];
      var leftID, rightID := parent.children[l], parent.children[l+1];
      ok := StoreInternal(leftID, lkeys, lkids);
      ok := StoreInternal(rightID, rkeys, rkids);
      ok := StoreInternal(id, parent.keys[l := sep], parent.children);
      n' := Inner(id, SpliceKeys(n, l, [sep]), SpliceKids(n, l, Resplit(n, l, m)));
      hide SpliceKeys, SpliceKids, Replaced, Rebalanced;
      if ok { InnersBorrowed(old(pages), pages, n, l, m, h, lo, hi, pre, post, s); }
    }

    method TryMerge(id: PageId, l: nat, ghost n: Node, ghost h: nat, ghost lo: Bound, ghost hi: Bound,
                    ghost pre: seq<PageId>, ghost post: seq<PageId>, ghost s: iset<Key>)
      returns (merged: bool, ghost n': Node)
      requires ParentInv(n, h, lo, hi, pre, post, s) && n.id == id && l < |n.keys|
      modifies this`pages, this`freelist
      ensures ParentInv(n', h, lo, hi, pre, post, s) && Rebalanced(old(pages), pages, n, n', h, lo, hi, pre, post)
      ensures merged <==> !TooBig(pageSize, n, l)
      ensures merged ==> n' == MergedAt(n, l) && |n'.kids| == |n.kids| - 1
      ensures merged && (AllFullBut(n.kids, l) || AllFullBut(n.kids, l + 1)) ==> AllFull(n'.kids)
      ensures !merged ==> n' == n && pages == old(pages) && freelist == old(freelist)
    {
      hide Held, Swapped, LeafFits, InternalFits;
      PairHeld(pages, n, l, pre, post);
      ShapedPair(n, l, h, lo, hi);
      var children := pages[id].children;
      if pages[children[l]].LeafPage? {
        merged, n' := MergeLeaves(id, l, n, h, lo, hi, pre, post, s);
      } else {
        merged, n' := MergeInternal(id, l, n, h, lo, hi, pre, post, s);
      }
      if merged { MergedFull(n, l, MergedKid(n, l)); }
    }

    method TryBorrow(id: PageId, l: nat, fromRight: bool, ghost n: Node, ghost h: nat, ghost lo: Bound, ghost hi: Bound,
                     ghost pre: seq<PageId>, ghost post: seq<PageId>, ghost s: iset<Key>)
      returns (ok: bool, moved: bool, ghost n': Node)
      requires ParentInv(n, h, lo, hi, pre, post, s) && n.id == id && l < |n.keys|
      modifies this`pages
      ensures ok ==>
        ParentInv(n', h, lo, hi, pre, post, s) && Rebalanced(old(pages), pages, n, n', h, lo, hi, pre, post)
      ensures ok && !moved ==> n' == n && pages == old(pages)
      ensures BorrowOf(pageSize, n, l, fromRight) == Reached(ok, moved, n')
    {
      hide Held, Swapped, BorrowOf;
      PairHeld(pages, n, l, pre, post);
      ShapedPair(n, l, h, lo, hi);
      var children := pages[id].children;
      if pages[children[l]].LeafPage? {
        ok, moved, n' := BorrowLeaf(id, l, fromRight, n, h, lo, hi, pre, post, s);
      } else {
        ok, moved, n' := BorrowInternal(id, l, fromRight, n, h, lo, hi, pre, post, s);
      }
    }

    /** Merge with the left sibling, else with the right one, else borrow until
        the page is half full or nothing can move. */
    method Rebalance(id: PageId, idx: nat, ghost n: Node, ghost h: nat, ghost lo: Bound, ghost hi: Bound,
                     ghost pre: seq<PageId>, ghost post: seq<PageId>, ghost s: iset<Key>)
      returns (ok: bool, surviving: nat, ghost n': Node)
      requires ParentInv(n, h, lo, hi, pre, post, s) && n.id == id && n.keys != [] && idx < |n.kids|
      requires AllFullBut(n.kids, idx) && s <= HalfSet(pageSize)
      modifies this`pages, this`freelist
      ensures ok ==>
        ParentInv(n', h, lo, hi, pre, post, s) && Rebalanced(old(pages), pages, n, n', h, lo, hi, pre, post)
      ensures ok ==> AllFull(n'.kids) && surviving < |n'.kids|
      ensures surviving == if MergesLeft(pageSize, n, idx) then idx - 1 else idx
      ensures RebalanceOf(pageSize, n, idx) == Reached(ok, true, n')
    {
      hide Held, Swapped, KidsShape, TooBig, LoopOf, MergedAt;
      var merged;
      assert pages[id] == InternalPage(n.keys, IdsOf(n.kids)) by { PairHeld(pages, n, 0, pre, post); }
      ok, surviving := true, idx;
      if idx > 0 {
        merged, n' := TryMerge(id, idx - 1, n, h, lo, hi, pre, post, s);
        if merged { surviving := idx - 1; return; }
      }
      if idx + 1 < |pages[id].children| {
        merged, n' := TryMerge(id, idx, n, h, lo, hi, pre, post, s);
        if merged { return; }
      } else {
        LastTooBig(pageSize, n, idx);
      }
      MergesFailed(pageSize, pages, n, idx, h, lo, hi, pre, post, s);
      ok, n' := BorrowLoop(id, idx, n, h, lo, hi, pre, post, s);
    }

    /** The loop at the end of rebalance. */
    method BorrowLoop(id: PageId, idx: nat, ghost n: Node, ghost h: nat, ghost lo: Bound, ghost hi: Bound,
                      ghost pre: seq<PageId>, ghost post: seq<PageId>, ghost s: iset<Key>)
      returns (ok: bool, ghost n': Node)
      requires ParentInv(n, h, lo, hi, pre, post, s) && n.id == id && n.keys != [] && idx < |n.kids|
      requires AllFullBut(n.kids, idx) && s <= HalfSet(pageSize) && (Full(n.kids[idx]) || Rescuable(n, idx))
      modifies this`pages
      ensures ok ==>
        ParentInv(n', h, lo, hi, pre, post, s) && Rebalanced(old(pages), pages, n, n', h, lo, hi, pre, post)
      ensures ok ==> AllFull(n'.kids) && |n'.kids| == |n.kids|
      ensures LoopOf(pageSize, n, idx) == Reached(ok, true, n')
    {
      hide Held, Swapped, KidsShape, Reps, Less, Replaced, RoundOf, Sparse, Rescuable;
      ok, n' := true, n;
      RebalancedSelf(pages, n, h, lo, hi, pre, post);
      while true
        invariant ok && ParentInv(n', h, lo, hi, pre, post, s)
        invariant Rebalanced(old(pages), pages, n, n', h, lo, hi, pre, post)
        invariant |n'.kids| == |n.kids| && n'.id == id && AllFullBut(n'.kids, idx)
        invariant Full(n'.kids[idx]) || Rescuable(n', idx)
        invariant LoopOf(pageSize, n', idx) == LoopOf(pageSize, n, idx)
        decreases Neighbours(n', idx)
      {
        ghost var cur, p := n', pages;
        ChildPage(pages, n', idx, pre, post);
        SparsePage(pageSize, pages, n'.kids[idx]);
        if !Underfull(pageSize, pages[pages[id].children[idx]]) { FullWhenUsed(pageSize, n'.kids[idx]); return; }
        var moved;
        ok, moved, n' := BorrowRound(id, idx, cur, h, lo, hi, pre, post, s);
        if !ok { return; }
        if !moved { RescueMoves(pageSize, pages, cur, idx, h, lo, hi, pre, post, s); return; }
        RebalancedTransitive(old(pages), p, pages, n, cur, n', h, lo, hi, pre, post);
      }
    }

    /** One round of the loop: borrow from the left sibling, else from the right one. */
    method BorrowRound(id: PageId, idx: nat, ghost n: Node, ghost h: nat, ghost lo: Bound, ghost hi: Bound,
                       ghost pre: seq<PageId>, ghost post: seq<PageId>, ghost s: iset<Key>)
      returns (ok: bool, moved: bool, ghost n': Node)
      requires ParentInv(n, h, lo, hi, pre, post, s) && n.id == id && idx < |n.kids|
      modifies this`pages
      ensures ok ==>
        ParentInv(n', h, lo, hi, pre, post, s) && Rebalanced(old(pages), pages, n, n', h, lo, hi, pre, post)
      ensures ok && !moved ==> n' == n && pages == old(pages)
      ensures ok && moved ==> |n'.kids| == |n.kids| && (AllFullBut(n.kids, idx) ==> AllFull(n'.kids))
      ensures RoundOf(pageSize, n, idx) == Reached(ok, moved, n')
    {
      hide Held, Swapped, KidsShape, Reps, Less, Replaced, BorrowOf, PagesKeys, PagesFit;
      ChildPage(pages, n, idx, pre, post);
      var children := pages[id].children;
      ok, moved, n' := true, false, n;
      RebalancedSelf(pages, n, h, lo, hi, pre, post);
      if idx > 0 {
        ok, moved, n' := TryBorrow(id, idx - 1, false, n, h, lo, hi, pre, post, s);
      }
      if ok && !moved && idx + 1 < |children| {
        ok, moved, n' := TryBorrow(id, idx, true, n, h, lo, hi, pre, post, s);
      }
    }

    /** The smallest key below page id. The walk gives up after MAX_TREE_HEIGHT pages. */
    method LeftmostKey(id: PageId, ghost t: Node, ghost h: nat, ghost lo: Bound, ghost hi: Bound)
      returns (ok: bool, key: Key)
      requires t.id == id && Reps(pages, t) && Shape(t, h, lo, hi) && Full(t)
      ensures ok <==> h < MAX_TREE_HEIGHT
      ensures ok ==> Flat(t) != [] && key == Flat(t)[0].key
    {
      var at, hop := id, 0;
      ghost var cur, chi := t, hi;
      FlatOrdered(t, h, lo, hi);
      while hop < MAX_TREE_HEIGHT
        invariant hop <= MAX_TREE_HEIGHT && hop <= h && (hop == h ==> cur.Leaf?)
        invariant cur.id == at && Reps(pages, cur) && Shape(cur, h - hop, lo, chi) && Full(cur)
        invariant Flat(cur) != [] && Flat(cur)[0] == Flat(t)[0]
      {
        if pages[at].LeafPage? { return true, pages[at].cells[0].key; }
        FirstKid(cur, h - hop, lo, chi);
        at := pages[at].children[0];
        cur, chi := cur.kids[0], HiAt(cur.keys, chi, 0);
        hop := hop + 1;
      }
      return false, [];
    }

    /** Sets the separator left of child c to the smallest key below it. Below
        the height limit this fails exactly when the page with the new separator
        does not fit. */
    method SyncSeparator(id: PageId, c: nat, ghost n: Node, ghost h: nat, ghost lo: Bound, ghost hi: Bound,
                         ghost pre: seq<PageId>, ghost post: seq<PageId>, ghost s: iset<Key>)
      returns (ok: bool, ghost n': Node)
      requires ParentInv(n, h, lo, hi, pre, post, s) && n.id == id && 0 < c < |n.kids| && AllFull(n.kids)
      modifies this`pages
      ensures Flat(n.kids[c]) != []
      ensures ok <==> h < MAX_TREE_HEIGHT && InternalFits(pageSize, n.keys[c-1 := Flat(n.kids[c])[0].key])
      ensures ok ==>
        ParentInv(n', h, lo, hi, pre, post, s) && Rebalanced(old(pages), pages, n, n', h, lo, hi, pre, post)
      ensures ok ==> n' == Inner(id, n.keys[c-1 := Flat(n.kids[c])[0].key], n.kids)
    {
      hide Held, Swapped, KidsShape, Shape, Flat, Reps, PagesKeys, InternalFits;
      PairHeld(pages, n, c - 1, pre, post);
      KidShape(n, c, h, lo, hi);
      FlatOrdered(n.kids[c], h, LoAt(n.keys, lo, c), HiAt(n.keys, hi, c));
      var parent := pages[id];
      assert PageFits(pageSize, parent);
      var smallest;
      ok, smallest := LeftmostKey(parent.children[c], n.kids[c], h, LoAt(n.keys, lo, c), HiAt(n.keys, hi, c));
      n' := n;
      if !ok { return; }
      if parent.keys[c-1] == smallest {
        assert n.keys[c-1 := smallest] == n.keys;
        RebalancedSelf(pages, n, h, lo, hi, pre, post);
        return;
      }
      FirstKeyIn(pages, n.kids[c], s);
      ok := StoreInternal(id, parent.keys[c-1 := smallest], parent.children);
      n' := Inner(id, n.keys[c-1 := smallest], n.kids);
      if ok { SeparatorSynced(old(pages), pages, n, c, smallest, h, lo, hi, pre, post, s); }
    }

    /** Fixes child idx after a deletion below it. */
    method Repair(id: PageId, idx: nat, isRoot: bool, ghost n: Node, ghost h: nat, ghost lo: Bound, ghost hi: Bound,
                  ghost pre: seq<PageId>, ghost post: seq<PageId>, ghost s: iset<Key>)
      returns (ok: bool, ghost t': Node, ghost h': nat)
      requires ParentInv(n, h, lo, hi, pre, post, s) && n.id == id && n.keys != [] && idx < |n.kids|
      requires AllFullBut(n.kids, idx) && s <= HalfSet(pageSize) && (isRoot ==> root == id)
      modifies this`pages, this`freelist, this`root
      ensures ok ==> RepairOf(pageSize, n, idx, isRoot) == Wrote(t')
      ensures !ok && h < MAX_TREE_HEIGHT ==> RepairOf(pageSize, n, idx, isRoot) == Overflow
      ensures ok ==> StoreInv() && PagesKeys(pages, s) && Replaced(old(pages), pages, [n], [t'], pre, post)
      ensures ok ==> Shape(t', h', lo, hi) && Flat(t') == FlatAll(n.kids)
      ensures ok && !isRoot ==> t'.id == id && h' == h + 1 && root == old(root)
      ensures ok && isRoot ==> root == t'.id && Full(t') && h' <= h + 1
    {
      hide Held, Swapped, Replaced, KidsShape, Shape, Flat, FlatAll, Sparse, RebalanceOf, TooBig;
      hide PagesKeys, PagesFit, InternalFits, Reps;
      ChildPage(pages, n, idx, pre, post);
      SparsePage(pageSize, pages, n.kids[idx]);
      var parent := pages[id];
      var surviving := idx;
      ghost var m := n;
      ok := true;
      if Underfull(pageSize, pages[parent.children[idx]]) {
        ok, surviving, m := Rebalance(id, idx, n, h, lo, hi, pre, post, s);
        if !ok { t', h' := n, h; return; }
        ChildPage(pages, m, 0, pre, post);
        parent := pages[id];
      } else {
        FullWhenUsed(pageSize, n.kids[idx]);
        RebalancedSelf(pages, n, h, lo, hi, pre, post);
      }
      assert AllFull(m.kids);
      assert RepairOf(pageSize, n, idx, isRoot) == SettleOf(pageSize, m, surviving, isRoot);
      if isRoot && parent.keys == [] {
        root := parent.children[0];
        ghost var p := pages;
        t', h' := m.kids[0], h;
        FreePage(id);
        Collapsed(old(pages), p, pages, n, m, h, lo, hi, pre, post, s);
        return;
      }
      t', h' := m, h + 1;
      RepairedShape(m, h, lo, hi);
      if surviving <= 0 || surviving >= |parent.children| { return; }
      ghost var p := pages;
      ok, t' := SyncSeparator(id, surviving, m, h, lo, hi, pre, post, s);
      if ok {
        RebalancedTransitive(old(pages), p, pages, n, m, t', h, lo, hi, pre, post);
        RepairedShape(t', h, lo, hi);
      }
    }

    method RemoveLeaf(id: PageId, key: Key, isRoot: bool, ghost t: Node, ghost lo: Bound, ghost hi: Bound,
                      ghost pre: seq<PageId>, ghost post: seq<PageId>, ghost s: iset<Key>)
      returns (found: bool, ghost ns: seq<Node>)
      requires StoreInv() && t.Leaf? && t.id == id && Held(pages, [t], pre, post) && Shape(t, 0, lo, hi) && Full(t)
      requires PagesKeys(pages, s) && (isRoot ==> root == id && pre == [] && post == [])
      modifies this`pages, this`freelist, this`root
      ensures StoreInv() && PagesKeys(pages, s) && Replaced(old(pages), pages, [t], ns, pre, post)
      ensures RemoveOf(pageSize, t, key, isRoot) == Shrunk(found, ns)
      ensures FlatAll(ns) == SeqDel(Flat(t), key) && (found <==> SeqDel(Flat(t), key) != Flat(t))
      ensures !found ==> ns == [t] && pages == old(pages) && freelist == old(freelist) && root == old(root)
      ensures !isRoot ==> |ns| == 1 && ns[0].id == id && Shape(ns[0], 0, lo, hi) && root == old(root)
      ensures isRoot ==>
        if ns == [] then root == 0 else |ns| == 1 && root == ns[0].id && Shape(ns[0], 0, lo, hi) && Full(ns[0])
    {
      hide Held, Swapped, Replaced, PagesKeys, SeqDel, FlatAll, Sorted, CellsIn, RepairOf, ChildAt, Less, CellSize,
        Linked;
      HeldLeaf(pages, id, t.cells, pre, post);
      var page := pages[id];
      assert PageFits(pageSize, page);
      var idx;
      idx, found := LeafSearch(page.cells, key);
      DelIndex(page.cells, idx, key);
      if !found {
        ns := [t];
        ReplacedSelf(pages, ns, pre, post);
        One(t);
        return;
      }
      var cells := page.cells[..idx] + page.cells[idx+1..];
      CellsSizeAround(pageSize, page.cells, idx);
      CellsSizeSplice(pageSize, page.cells[..idx], page.cells[idx+1..]);
      if isRoot && cells == [] {
        root := 0;
        FreePage(id);
        ns := [];
        LeafDropped(old(pages), pages, t, s);
      } else {
        var ok := StoreLeaf(id, page.left, page.right, cells);
        ns := [Leaf(id, cells)];
        LeafShrunk(old(pages), pages, t, idx, lo, hi, pre, post, s);
      }
    }

    method Remove(id: PageId, key: Key, isRoot: bool, ghost t: Node, ghost h: nat, ghost lo: Bound, ghost hi: Bound,
                  ghost pre: seq<PageId>, ghost post: seq<PageId>, ghost s: iset<Key>)
      returns (ok: bool, found: bool, ghost ns: seq<Node>, ghost h': nat)
      requires StoreInv() && t.id == id && Held(pages, [t], pre, post) && Shape(t, h, lo, hi) && Full(t)
        && InRange(key, lo, hi)
      requires PagesKeys(pages, s) && s <= HalfSet(pageSize) && (isRoot ==> root == id && pre == [] && post == [])
      modifies this`pages, this`freelist, this`root
      decreases t
      ensures ok ==> StoreInv() && PagesKeys(pages, s) && Replaced(old(pages), pages, [t], ns, pre, post)
      ensures ok ==> FlatAll(ns) == SeqDel(Flat(t), key) && (found <==> SeqDel(Flat(t), key) != Flat(t))
      ensures ok && !found ==> ns == [t] && pages == old(pages) && freelist == old(freelist) && root == old(root)
      ensures ok && !isRoot ==> |ns| == 1 && ns[0].id == id && h' == h && Shape(ns[0], h, lo, hi) && root == old(root)
      ensures ok && isRoot ==>
        if ns == [] then root == 0 else |ns| == 1 && root == ns[0].id && Shape(ns[0], h', lo, hi) && Full(ns[0])
      ensures ok ==> RemoveOf(pageSize, t, key, isRoot) == Shrunk(found, ns)
      ensures !ok && h <= MAX_TREE_HEIGHT ==> RemoveOf(pageSize, t, key, isRoot) == Unfit
      ensures SeqDel(Flat(t), key) == Flat(t) ==> ok
    {
      assert Reps(pages, [t][0]);
      if pages[id].LeafPage? {
        ok, h' := true, 0;
        found, ns := RemoveLeaf(id, key, isRoot, t, lo, hi, pre, post, s);
      } else {
        ok, found, ns, h' := RemoveBelow(id, key, isRoot, t, h, lo, hi, pre, post, s);
      }
    }

    /** The internal-page case of remove. */
    method RemoveBelow(id: PageId, key: Key, isRoot: bool, ghost t: Node, ghost h: nat, ghost lo: Bound,
                       ghost hi: Bound,
                       ghost pre: seq<PageId>, ghost post: seq<PageId>, ghost s: iset<Key>)
      returns (ok: bool, found: bool, ghost ns: seq<Node>, ghost h': nat)
      requires StoreInv() && t.Inner? && t.id == id && Held(pages, [t], pre, post) && Shape(t, h, lo, hi) && Full(t)
        && InRange(key, lo, hi)
      requires PagesKeys(pages, s) && s <= HalfSet(pageSize) && (isRoot ==> root == id && pre == [] && post == [])
      modifies this`pages, this`freelist, this`root
      decreases t, 0
      ensures ok ==> StoreInv() && PagesKeys(pages, s) && Replaced(old(pages), pages, [t], ns, pre, post)
      ensures ok ==> FlatAll(ns) == SeqDel(Flat(t), key) && (found <==> SeqDel(Flat(t), key) != Flat(t))
      ensures ok && !found ==> ns == [t] && pages == old(pages) && freelist == old(freelist) && root == old(root)
      ensures ok && !isRoot ==> |ns| == 1 && ns[0].id == id && h' == h && Shape(ns[0], h, lo, hi) && root == old(root)
      ensures ok && isRoot ==> |ns| == 1 && root == ns[0].id && Shape(ns[0], h', lo, hi) && Full(ns[0])
      ensures ok ==> RemoveOf(pageSize, t, key, isRoot) == Shrunk(found, ns)
      ensures !ok && h <= MAX_TREE_HEIGHT ==> RemoveOf(pageSize, t, key, isRoot) == Unfit
      ensures SeqDel(Flat(t), key) == Flat(t) ==> ok
    {
      hide Held, Swapped, Replaced, PagesKeys, PagesFit, Less, SeqDel, LeafIdsAll, Shape, KidsShape, Flat, FlatAll,
        InRange;
      hide RepairOf, ChildAt, AllFullBut;
      ParentPage(pages, t, h, lo, hi, pre, post);
      var node := pages[id];
      var idx := ChildIndex(node.keys, key);
      ghost var lo', hi', pre', post' := LoAt(t.keys, lo, idx), HiAt(t.keys, hi, idx),
        pre + LeafIdsAll(t.kids[..idx]), LeafIdsAll(t.kids[idx+1..]) + post;
      ghost var c := t.kids[idx];
      ChildReady(pages, t, idx, h, lo, hi, pre, post);
      ChildAbsent(t, idx, h, lo, hi, key);
      ghost var cns;
      ok, found, cns, h' := Remove(node.children[idx], key, false, c, h - 1, lo', hi', pre', post', s);
      h' := h;
      if !ok { ns := []; return; }
      ChildRemoved(old(pages), pages, t, idx, cns, h, lo, hi, key, pre, post);
      if !found { ns := [t]; ReplacedSelf(pages, ns, pre, post); return; }
      ghost var n := WithKid(t, idx, cns[0]);
      assert cns == [cns[0]];
      ok, ns, h' := FinishRemove(id, idx, isRoot, t, n, old(pages), h, lo, hi, pre, post, s);
    }

    /** The part of remove that follows a deletion below. */
    method FinishRemove(id: PageId, idx: nat, isRoot: bool, ghost t: Node, ghost n: Node, ghost was: Pages,
                        ghost h: nat, ghost lo: Bound, ghost hi: Bound,
                        ghost pre: seq<PageId>, ghost post: seq<PageId>, ghost s: iset<Key>)
      returns (ok: bool, ghost ns: seq<Node>, ghost h': nat)
      requires StoreInv() && n.Inner? && n.id == id && n.keys != [] && idx < |n.kids| == |n.keys| + 1 && h > 0
      requires Replaced(was, pages, [t], [n], pre, post) && KidsShape(n.keys, n.kids, h - 1, lo, hi)
        && AllFullBut(n.kids, idx)
      requires PagesKeys(pages, s) && s <= HalfSet(pageSize) && (isRoot ==> root == id)
      modifies this`pages, this`freelist, this`root
      ensures ok ==>
        StoreInv() && PagesKeys(pages, s) && Replaced(was, pages, [t], ns, pre, post) && FlatAll(ns) == FlatAll(n.kids)
      ensures ok && !isRoot ==> |ns| == 1 && ns[0].id == id && h' == h && Shape(ns[0], h, lo, hi) && root == old(root)
      ensures ok && isRoot ==> |ns| == 1 && root == ns[0].id && Shape(ns[0], h', lo, hi) && Full(ns[0])
      ensures ok ==> RepairOf(pageSize, n, idx, isRoot) == Wrote(ns[0]) && |ns| == 1
      ensures !ok && h <= MAX_TREE_HEIGHT ==> RepairOf(pageSize, n, idx, isRoot) == Overflow
    {
      hide Held, Swapped, KidsShape, Shape, Flat, FlatAll, Reps, PagesKeys, PagesFit, RepairOf;
      ghost var t';
      ok, t', h' := Repair(id, idx, isRoot, n, h - 1, lo, hi, pre, post, s);
      ns := [t'];
      if ok { RemoveRepaired(was, old(pages), pages, t, n, t', pre, post); }
    }

    /** Delete. It succeeds unless a page on the way down overflows with a separator
        that the deletion moves or refreshes, and then the tree is the one RemoveOf
        says. Absent keys, keys of one length and pages with room for two separators
        that are longer by the spread of the key lengths never make it fail. */
    method Delete(key: Key) returns (ok: bool)
      requires Valid()
      modifies this
      ensures ok ==> Valid() && OthersKept() && Contents() == old(Contents()) - {key}
      ensures ok && old(root) != 0 ==>
        RemoveOf(pageSize, old(shape), key, true) == TreeNow(root == 0, shape, old(shape))
      ensures old(pageCount) <= PAGE_ID_LIMIT ==>
        (ok <==> old(root) != 0 ==> RemoveOf(pageSize, old(shape), key, true) != Unfit)
      ensures key !in old(Contents()) ==> ok
      ensures old(pageCount) <= PAGE_ID_LIMIT && old(OneLength(pages)) ==> ok
      ensures old(pageCount) <= PAGE_ID_LIMIT ==>
        forall d: nat :: old(WithinSpread(pages, d)) && RoomOnPath(pageSize, old(shape), key, 2 * d) ==> ok
      ensures ok && old(Short()) ==> Short()
      ensures ok && old(root) != 0 && root != 0 && Exact(old(shape)) ==>
        (Exact(shape) <==> !PullsStale(pageSize, old(shape), key))
    {
      if root == 0 { return true; }
      hide Held, Swapped, Shape, KeptOutside, PagesKeys, PagesFit, WithinSpread, RoomOnPath, Flat, MapOf, SeqDel,
        RemoveOf, Exact, PullsStale;
      HeightBound(pages, shape, height, pageCount);
      AbsentRoot(shape, height, key);
      KeySets(pageSize, pages);
      RoomSuffices(pageSize, pages, shape, key);
      if Exact(shape) { RootExact(pageSize, pages, shape, height, key); }
      ok := DeleteFrom(key, KeySet(Short()));
    }

    /** Delete on a tree that has a root page. */
    method DeleteFrom(key: Key, ghost s: iset<Key>) returns (ok: bool)
      requires Valid() && root != 0 && PagesKeys(pages, s) && s <= HalfSet(pageSize)
      modifies this
      ensures ok ==> Valid() && OthersKept() && Contents() == MapOf(Flat(old(shape))) - {key} && PagesKeys(pages, s)
      ensures ok ==> RemoveOf(pageSize, old(shape), key, true) == TreeNow(root == 0, shape, old(shape))
      ensures !ok && old(height) <= MAX_TREE_HEIGHT ==> RemoveOf(pageSize, old(shape), key, true) == Unfit
      ensures SeqDel(Flat(old(shape)), key) == Flat(old(shape)) ==> ok
    {
      hide Held, Swapped, Shape, KeptOutside, PagesKeys, PagesFit, Flat, FlatAll, MapOf, SeqDel, RemoveOf;
      ghost var was, h := shape, height;
      var found;
      ghost var ns, h';
      ok, found, ns, h' := Remove(root, key, true, was, h, Open, Open, [], [], s);
      if !ok { return; }
      RootRemoved(old(pages), pages, was, ns, h, key);
      KeysWiden(pages, s, HalfSet(pageSize));
      if ns == [] {
        EmptyFlat();
      } else {
        shape, height := ns[0], h';
        assert ns == [shape];
        One(shape);
        RootPage(pages, shape);
      }
    }

    /** Loads leaf id and stores it with a new left link. */
    method RelinkLeft(id: PageId, left: PageId)
      requires StoreInv() && id in pages && pages[id].LeafPage?
      modifies this`pages
      ensures StoreInv() && pages == old(pages)[id := old(pages)[id].(left := left)]
    {
      var sib := pages[id];
      assert PageFits(pageSize, sib);
      var ok := StoreLeaf(id, left, sib.right, sib.cells);
    }
  }

  lemma {:induction false} RootExact(ps: PageSize, p: Pages, t: Node, h: nat, key: Key)
    requires Held(p, [t], [], []) && PagesFit(ps, p) && Shape(t, h, Open, Open) && Full(t) && Exact(t)
    ensures var r := RemoveOf(ps, t, key, true);
      && (r.Removed? ==> (Exact(r.node) <==> !PullsStale(ps, t, key)))
      && (r.Absent? ==> !PullsStale(ps, t, key))
  {
    assert Reps(p, [t][0]);
    if RemoveOf(ps, t, key, true).Removed? { DeleteExact(ps, p, t, key, true, h, Open, Open); }
  }

  lemma {:induction false} ThreeKeys(ps: PageSize, keys: seq<Key>)
    requires (forall i :: 0 <= i < |keys| ==> keys[i] in HalfSet(ps)) && !InternalFits(ps, keys)
    ensures |keys| >= 3
  {
    if |keys| <= 2 { TwoKeysFit(ps, keys); }
  }

  function Split(split: bool, sep: Key): Insertion { if split then Splits(sep) else Stays }

  lemma {:induction false} KeySets(ps: PageSize, p: Pages)
    ensures ShortSet(ps) <= HalfSet(ps)
    ensures PagesKeys(p, ShortSet(ps)) ==> PagesKeys(p, HalfSet(ps))
  {
    forall k | k in ShortSet(ps) ensures k in HalfSet(ps) { ShortKeyMeans(ps, k); }
    if PagesKeys(p, ShortSet(ps)) { KeysWiden(p, ShortSet(ps), HalfSet(ps)); }
  }

  lemma {:induction false} RootShortFits(ps: PageSize, p: Pages, t: Node, key: Key, val: seq<Byte>, h: nat)
    requires Held(p, [t], [], []) && Shape(t, h, Open, Open)
    requires PagesFit(ps, p) && PagesKeys(p, ShortSet(ps)) && ShortKey(ps, key)
    ensures !InsertOf(ps, t, key, val).NoRoom?
  {
    assert Reps(p, [t][0]);
    ShortKeysFit(ps, p, t, key, val, h, Open, Open);
  }

  /** The outcome of a step in terms of what the method returns. */
  ghost function Reached(ok: bool, moved: bool, n: Node): Outcome {
    if !ok then Overflow else if moved then Wrote(n) else Stuck
  }

  ghost function Shrunk(found: bool, ns: seq<Node>): Removal {
    if !found then Absent else if ns == [] then Emptied else Removed(ns[0])
  }

  /** The tree was emptied, or is as it was, or is a smaller one. */
  ghost function TreeNow(empty: bool, t: Node, was: Node): Removal {
    if empty then Emptied else if t == was then Absent else Removed(t)
  }

  /** The child lost the key; it may be short of cells or separators now. */
  lemma {:induction false} ChildRemoved(p: Pages, q: Pages, t: Node, idx: nat, cns: seq<Node>, h: nat, lo: Bound,
                                        hi: Bound, key: Key, pre: seq<PageId>, post: seq<PageId>)
    requires Held(p, [t], pre, post) && t.Inner? && Shape(t, h, lo, hi) && idx <= |t.keys| && |t.kids| == |t.keys| + 1
    requires Replaced(p, q, [t.kids[idx]], cns, pre + LeafIdsAll(t.kids[..idx]), LeafIdsAll(t.kids[idx+1..]) + post)
    requires |cns| == 1 && cns[0].id == t.kids[idx].id
      && Shape(cns[0], h - 1, LoAt(t.keys, lo, idx), HiAt(t.keys, hi, idx))
    requires FlatAll(cns) == SeqDel(Flat(t.kids[idx]), key)
    requires SeqDel(Flat(t), key) == FlatAll(t.kids[..idx]) + SeqDel(Flat(t.kids[idx]), key) + FlatAll(t.kids[idx+1..])
    ensures var n := Inner(t.id, t.keys, t.kids[..idx] + cns + t.kids[idx+1..]);
      && Replaced(p, q, [t], [n], pre, post) && KidsShape(n.keys, n.kids, h - 1, lo, hi)
      && AllFullBut(n.kids, idx) && FlatAll(n.kids) == SeqDel(Flat(t), key)
    ensures cns == [t.kids[idx]] ==> FlatAll([t]) == SeqDel(Flat(t), key)
  {
    hide Held, Swapped;
    var a, b := t.kids[..idx], t.kids[idx+1..];
    ChildKept(p, q, t, idx, [], cns, pre, post);
    assert cns == [cns[0]];
    KidsOne(cns[0], h - 1, LoAt(t.keys, lo, idx), HiAt(t.keys, hi, idx));
    WindowShape(t.keys, t.kids, idx, idx + 1, [], cns, h - 1, lo, hi);
    Spliced(a, cns, b);
    One(t);
    Around(t.kids, idx);
    One(t.kids[idx]);
    ButSpliced(t.kids, idx, cns[0]);
  }

  lemma {:induction false} ButSpliced(kids: seq<Node>, idx: nat, c: Node)
    requires idx < |kids| && AllFull(kids)
    ensures AllFullBut(kids[..idx] + [c] + kids[idx+1..], idx)
  {
    var s := kids[..idx] + [c] + kids[idx+1..];
    forall i | 0 <= i < |s| && i != idx ensures Full(s[i]) { assert s[i] == kids[i]; }
  }

  /** Siblings of a tree of uniform depth make a pair. */
  lemma {:induction false} ShapedPair(n: Node, l: nat, h: nat, lo: Bound, hi: Bound)
    requires n.Inner? && KidsShape(n.keys, n.kids, h, lo, hi) && l < |n.keys|
    ensures Pair(n, l)
  {
    var a, b := n.kids[l], n.kids[l+1];
    assert Shape(a, h, LoAt(n.keys, lo, l), HiAt(n.keys, hi, l));
    assert Shape(b, h, LoAt(n.keys, lo, l + 1), HiAt(n.keys, hi, l + 1));
    if a.Inner? {
      assert KidsShape(a.keys, a.kids, h - 1, LoAt(n.keys, lo, l), HiAt(n.keys, hi, l));
      assert KidsShape(b.keys, b.kids, h - 1, LoAt(n.keys, lo, l + 1), HiAt(n.keys, hi, l + 1));
    }
  }

  lemma {:induction false} LastTooBig(ps: PageSize, n: Node, idx: nat)
    requires n.Inner? && idx >= |n.keys|
    ensures TooBig(ps, n, idx)
  {}

  lemma {:induction false} MergedFull(n: Node, l: nat, j: Node)
    requires n.Inner? && l < |n.keys| && l + 1 < |n.kids|
    requires Full(n.kids[l]) || Full(n.kids[l+1]) ==> Full(j)
    ensures AllFullBut(n.kids, l) || AllFullBut(n.kids, l + 1) ==> AllFull(SpliceKids(n, l, [j]))
  {
    if AllFullBut(n.kids, l) || AllFullBut(n.kids, l + 1) {
      FullSpliced(n.kids[..l], [j], n.kids[l+2..]);
    }
  }

  predicate Underfull(ps: PageSize, p: Page) {
    match p
    case LeafPage(_, _, cells) => LeafUsed(ps, cells) < Payload(ps) / 2
    case InternalPage(keys, _) => InternalUsed(keys) < Payload(ps) / 2
  }

  lemma {:induction false} SparsePage(ps: PageSize, p: Pages, t: Node)
    requires Reps(p, t)
    ensures Underfull(ps, p[t.id]) <==> Sparse(ps, t)
  {}

  /** A page that is at least half full is not empty. */
  lemma {:induction false} FullWhenUsed(ps: PageSize, t: Node)
    requires !Sparse(ps, t)
    ensures Full(t)
  {}

  /** When no merge fits, an empty leaf is impossible and the siblings of a
      page without separators have two separators to spare. */
  lemma {:induction false} MergesFailed(ps: PageSize, p: Pages, n: Node, idx: nat, h: nat, lo: Bound, hi: Bound,
                                        pre: seq<PageId>, post: seq<PageId>, s: iset<Key>)
    requires Held(p, [n], pre, post) && n.Inner? && KidsShape(n.keys, n.kids, h, lo, hi) && n.keys != []
      && idx < |n.kids|
    requires PagesFit(ps, p) && PagesKeys(p, s) && s <= HalfSet(ps)
    requires (idx > 0 ==> TooBig(ps, n, idx - 1)) && (idx + 1 < |n.kids| ==> TooBig(ps, n, idx))
    ensures Full(n.kids[idx]) || Rescuable(n, idx)
  {
    if !Full(n.kids[idx]) {
      if idx > 0 {
        ShapedPair(n, idx - 1, h, lo, hi);
        Sibling(ps, p, n, idx - 1, true, pre, post, s);
      }
      if idx + 1 < |n.kids| {
        ShapedPair(n, idx, h, lo, hi);
        Sibling(ps, p, n, idx, false, pre, post, s);
      }
    }
  }

  /** A page without separators next to generous siblings is not stuck. */
  lemma {:induction false} RescueMoves(ps: PageSize, p: Pages, n: Node, idx: nat, h: nat, lo: Bound, hi: Bound,
                                       pre: seq<PageId>, post: seq<PageId>, s: iset<Key>)
    requires Held(p, [n], pre, post) && n.Inner? && KidsShape(n.keys, n.kids, h, lo, hi) && idx < |n.kids|
    requires PagesKeys(p, s) && s <= HalfSet(ps) && RoundOf(ps, n, idx).Stuck?
    ensures !Rescuable(n, idx)
  {
    if Rescuable(n, idx) {
      ChildPage(p, n, idx, pre, post);
      assert PageKeys(p[n.id], s);
      var l := if idx > 0 then idx - 1 else idx;
      ShapedPair(n, l, h, lo, hi);
      hide Held, KidsShape, PagesKeys, Rescuable, BorrowOf;
      RescueLends(ps, n, idx, l);
    }
  }

  lemma {:induction false} RescueLends(ps: PageSize, n: Node, idx: nat, l: nat)
    requires Pair(n, l) && l == (if idx > 0 then idx - 1 else idx) && idx < |n.kids| && Rescuable(n, idx)
      && HalfKey(ps, n.keys[l])
    ensures !BorrowOf(ps, n, l, idx == 0).Stuck?
  {
    hide Lent;
    TwoKeysFit(ps, [n.keys[l]]);
    assert [n.keys[l]] + [] == [n.keys[l]] && [] + [n.keys[l]] == [n.keys[l]];
    assert CanLend(ps, n, l, idx == 0);
  }

  /** Next to a page without separators, a page with one at most can be merged. */
  lemma {:induction false} LoneSeparator(ps: PageSize, a: seq<Key>, k: Key, b: seq<Key>)
    requires HalfKeys(ps, a) && HalfKeys(ps, b) && HalfKey(ps, k) && !InternalFits(ps, a + [k] + b)
    ensures (a == [] ==> |b| >= 2) && (b == [] ==> |a| >= 2)
  {
    if (a == [] && |b| < 2) || (b == [] && |a| < 2) { TwoKeysFit(ps, a + [k] + b); }
  }

  lemma {:induction false} Sibling(ps: PageSize, p: Pages, n: Node, l: nat, left: bool, pre: seq<PageId>,
                                   post: seq<PageId>, s: iset<Key>)
    requires Held(p, [n], pre, post) && Pair(n, l)
    requires PagesFit(ps, p) && PagesKeys(p, s) && s <= HalfSet(ps) && TooBig(ps, n, l)
    requires !Full(n.kids[if left then l + 1 else l])
    ensures Generous(n.kids[if left then l else l + 1]) && Starved(n.kids[if left then l + 1 else l])
  {
    PairHeld(p, n, l, pre, post);
    var a, b := n.kids[l], n.kids[l+1];
    assert PageFits(ps, p[a.id]) && PageFits(ps, p[b.id]);
    if a.Leaf? {
      EmptyLeafFits(ps, a.cells, b.cells);
      assert false;
    } else {
      assert PageKeys(p[n.id], s) && PageKeys(p[a.id], s) && PageKeys(p[b.id], s);
      hide Held, PagesKeys, PagesFit;
      LoneSeparator(ps, a.keys, n.keys[l], b.keys);
    }
  }

  /** The guards and slices of borrowLeaf. */
  method ShiftCells(ps: PageSize, left: seq<Cell>, right: seq<Cell>, fromRight: bool)
    returns (can: bool, lcells: seq<Cell>, rcells: seq<Cell>)
    requires LeafFits(ps, left) && LeafFits(ps, right)
    ensures can ==>
      lcells + rcells == left + right && lcells != [] && rcells != [] && LeafFits(ps, lcells) && LeafFits(ps, rcells)
    ensures can ==> |lcells| == if fromRight then |left| + 1 else |left| - 1
    ensures can <==> CanLendCells(ps, left, right, fromRight)
  {
    can, lcells, rcells := false, left, right;
    if fromRight {
      if |right| < 2 || !LeafFits(ps, left + [right[0]]) { return; }
      can, lcells, rcells := true, left + [right[0]], right[1..];
    } else {
      var k := |left| - 1;
      if k < 1 || !LeafFits(ps, [left[k]] + right) { return; }
      can, lcells, rcells := true, left[..k], [left[k]] + right;
      CellsSizeAround(ps, left, k);
    }
  }

  /** The guards and slices of borrowInternal; m is where the new separator was. */
  method ShiftSeparator(ps: PageSize, left: Page, k: Key, right: Page, fromRight: bool, ghost n: Node, ghost l: nat)
    returns (can: bool, lkeys: seq<Key>, lkids: seq<PageId>, sep: Key, rkeys: seq<Key>, rkids: seq<PageId>,
      ghost m: nat)
    requires n.Inner? && l < |n.keys| && l + 1 < |n.kids| && n.kids[l].Inner? && n.kids[l+1].Inner? && k == n.keys[l]
    requires left == InternalPage(n.kids[l].keys, IdsOf(n.kids[l].kids))
      && right == InternalPage(n.kids[l+1].keys, IdsOf(n.kids[l+1].kids))
    requires |left.children| == |left.keys| + 1 && |right.children| == |right.keys| + 1
    requires InternalFits(ps, left.keys) && InternalFits(ps, right.keys)
    ensures can ==> InternalFits(ps, lkeys) && InternalFits(ps, rkeys) && lkeys != [] && rkeys != []
    ensures can ==> m < |MergedInner(n, l).keys| && m == if fromRight then |left.keys| + 1 else |left.keys| - 1
    ensures can ==> var j := MergedInner(n, l);
      && lkeys == j.keys[..m] && sep == j.keys[m] && rkeys == j.keys[m+1..]
      && lkids == IdsOf(j.kids[..m+1]) && rkids == IdsOf(j.kids[m+1..])
    ensures can <==> CanLendKeys(ps, left.keys, k, right.keys, fromRight)
  {
    can, lkeys, lkids, sep, rkeys, rkids, m := false, left.keys, left.children, k, right.keys, right.children, 0;
    if fromRight {
      if |right.keys| < 2 || !InternalFits(ps, left.keys + [k]) { return; }
      can, lkeys, lkids := true, left.keys + [k], left.children + [right.children[0]];
      sep, rkeys, rkids, m := right.keys[0], right.keys[1..], right.children[1..], |left.keys| + 1;
      Shifted(left.keys, k, right.keys, n.kids[l].kids, n.kids[l+1].kids, m);
    } else {
      var e := |left.keys| - 1;
      if e < 1 || !InternalFits(ps, [k] + right.keys) { return; }
      can, rkeys, rkids := true, [k] + right.keys, [left.children[e+1]] + right.children;
      sep, lkeys, lkids, m := left.keys[e], left.keys[..e], left.children[..e+1], e;
      Shifted(left.keys, k, right.keys, n.kids[l].kids, n.kids[l+1].kids, m);
      KeysSizeAround(left.keys, e);
    }
  }

  lemma {:induction false} LentLeaves(n: Node, l: nat, lcells: seq<Cell>, rcells: seq<Cell>, fromRight: bool)
    requires Pair(n, l) && n.kids[l].Leaf? && Items(n.kids[if fromRight then l + 1 else l]) >= 2
    requires lcells + rcells == n.kids[l].cells + n.kids[l+1].cells && rcells != []
    requires |lcells| == if fromRight then |n.kids[l].cells| + 1 else |n.kids[l].cells| - 1
    ensures Lent(n, l, fromRight).keys == n.keys[l := rcells[0].key]
    ensures Lent(n, l, fromRight) ==
      Inner(n.id, SpliceKeys(n, l, [rcells[0].key]),
        SpliceKids(n, l, [Leaf(n.kids[l].id, lcells), Leaf(n.kids[l+1].id, rcells)]))
  {
    var c := n.kids[l].cells + n.kids[l+1].cells;
    assert lcells == c[..|lcells|] && rcells == c[|lcells|..];
  }

  lemma {:induction false} LentInners(n: Node, l: nat, m: nat, fromRight: bool)
    requires Pair(n, l) && n.kids[l].Inner? && Items(n.kids[if fromRight then l + 1 else l]) >= 2
    requires m == if fromRight then |n.kids[l].keys| + 1 else |n.kids[l].keys| - 1
    ensures m < |MergedInner(n, l).keys|
    ensures Lent(n, l, fromRight).keys == n.keys[l := MergedInner(n, l).keys[m]]
    ensures Lent(n, l, fromRight) ==
      Inner(n.id, SpliceKeys(n, l, [MergedInner(n, l).keys[m]]), SpliceKids(n, l, Resplit(n, l, m)))
  {}

  /** The cells insertLeaf writes back or splits. */
  lemma {:induction false} NewCells(ps: PageSize, was: seq<Cell>, idx: nat, cells: seq<Cell>, key: Key,
                                    val: seq<Byte>, lo: Bound, hi: Bound, s: iset<Key>)
    requires idx <= |was| && AllBelow(was[..idx], key) && AllFrom(was[idx..], key)
    requires cells == if idx < |was| && was[idx].key == key then was[idx := Cell(key, val)]
      else was[..idx] + [Cell(key, val)] + was[idx..]
    requires Sorted(was) && CellsIn(was, lo, hi) && InRange(key, lo, hi) && key in s && LeafFits(ps, was)
    requires forall i :: 0 <= i < |was| ==> was[i].key in s
    ensures cells == SeqPut(was, key, val) && cells != [] && Sorted(cells) && CellsIn(cells, lo, hi)
    ensures forall i :: 0 <= i < |cells| ==> cells[i].key in s
    ensures s <= HalfSet(ps) && !LeafFits(ps, cells) ==> |cells| >= 2
  {
    PutIndex(was, idx, key, val);
    PutOrdered(was, key, val, lo, hi);
    PutKeys(was, key, val, s);
    if s <= HalfSet(ps) && !LeafFits(ps, cells) { TwoCells(ps, cells); }
  }
}
