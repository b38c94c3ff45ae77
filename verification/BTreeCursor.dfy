/** Lookup and ordered traversal: descents to a leaf and the sibling links. */
module BTreeCursor {
  import opened Bytes
  import opened BTreeShape
  import opened BTreeSize
  import opened BTreePages
  import opened BTreeBalance
  import opened BTreeStores
  import opened BTree

  /** The cells of the leaves ls, from left to right. */
  ghost function CellsOf(p: Pages, ls: seq<PageId>): seq<Cell> {
    if ls == [] then []
    else (if ls[0] in p && p[ls[0]].LeafPage? then p[ls[0]].cells else []) + CellsOf(p, ls[1..])
  }

  lemma {:induction false} CellsOfSplice(p: Pages, a: seq<PageId>, b: seq<PageId>)
    ensures CellsOf(p, a + b) == CellsOf(p, a) + CellsOf(p, b)
  {
    if a == [] { assert a + b == b; }
    else { assert (a + b)[1..] == a[1..] + b; CellsOfSplice(p, a[1..], b); }
  }

  /** The cells around leaf x. */
  lemma {:induction false} CellsAround(p: Pages, pre: seq<PageId>, x: PageId, post: seq<PageId>)
    requires x in p && p[x].LeafPage?
    ensures CellsOf(p, pre + [x] + post) == CellsOf(p, pre) + p[x].cells + CellsOf(p, post)
    ensures CellsOf(p, pre + [x]) == CellsOf(p, pre) + p[x].cells
    ensures CellsOf(p, [x] + post) == p[x].cells + CellsOf(p, post)
  {
    CellsOfSplice(p, pre + [x], post);
    CellsOfSplice(p, pre, [x]);
    CellsOfSplice(p, [x], post);
    assert [x][1..] == [];
  }

  /** The content of a tree is the content of its leaves. */
  lemma {:induction false} FlatIsLeaves(p: Pages, t: Node)
    requires Reps(p, t)
    ensures Flat(t) == CellsOf(p, LeafIds(t))
    decreases t, 1
  {
    if t.Leaf? { assert [t.id][1..] == []; } else { FlatIsLeavesAll(p, t.kids); }
  }

  lemma {:induction false} FlatIsLeavesAll(p: Pages, kids: seq<Node>)
    requires RepsAll(p, kids)
    ensures FlatAll(kids) == CellsOf(p, LeafIdsAll(kids))
    decreases kids, 0
  {
    if kids != [] {
      FlatIsLeaves(p, kids[0]);
      FlatIsLeavesAll(p, kids[1..]);
      CellsOfSplice(p, LeafIds(kids[0]), LeafIdsAll(kids[1..]));
    }
  }

  ghost predicate LeafFull(p: Pages, x: PageId) { x in p && p[x].LeafPage? && p[x].cells != [] }

  lemma {:induction false} LeavesFull(p: Pages, t: Node, h: nat, lo: Bound, hi: Bound)
    requires Reps(p, t) && Shape(t, h, lo, hi) && Full(t)
    ensures LeafIds(t) != [] && forall x :: x in LeafIds(t) ==> LeafFull(p, x)
    decreases t, 1
  {
    if t.Inner? { LeavesFullAll(p, t.keys, t.kids, h - 1, lo, hi); }
  }

  lemma {:induction false} LeavesFullAll(p: Pages, keys: seq<Key>, kids: seq<Node>, h: nat, lo: Bound, hi: Bound)
    requires RepsAll(p, kids) && KidsShape(keys, kids, h, lo, hi) && AllFull(kids)
    ensures LeafIdsAll(kids) != [] && forall x :: x in LeafIdsAll(kids) ==> LeafFull(p, x)
    decreases kids, 0
  {
    LeavesFull(p, kids[0], h, LoAt(keys, lo, 0), HiAt(keys, hi, 0));
    if |keys| > 0 {
      Cut(keys, kids, 0, h, lo, hi);
      LeavesFullAll(p, keys[1..], kids[1..], h, At(keys[0]), hi);
    } else {
      assert kids[1..] == [];
    }
  }

  /** A step of descend: the leaves beside child i hold only smaller or only larger keys. */
  lemma {:induction false} DescendStep(p: Pages, t: Node, i: nat, h: nat, lo: Bound, hi: Bound, key: Key)
    requires Reps(p, t) && t.Inner? && Shape(t, h, lo, hi) && i <= |t.keys|
      && InRange(key, LoAt(t.keys, lo, i), HiAt(t.keys, hi, i))
    ensures i < |t.kids| && LeafIds(t) == LeafIdsAll(t.kids[..i]) + LeafIds(t.kids[i]) + LeafIdsAll(t.kids[i+1..])
    ensures AllBelow(CellsOf(p, LeafIdsAll(t.kids[..i])), key) && AllAbove(CellsOf(p, LeafIdsAll(t.kids[i+1..])), key)
    ensures Reps(p, t.kids[i]) && Shape(t.kids[i], h - 1, LoAt(t.keys, lo, i), HiAt(t.keys, hi, i)) && Full(t.kids[i])
    ensures h == 1 ==> t.kids[i].Leaf?
  {
    hide AllBelow, AllAbove, Less, CellsOf, Flat, FlatAll, InRange;
    Around(t.kids, i);
    FlatAside(t.keys, t.kids, i, h - 1, lo, hi, key);
    FlatIsLeavesAll(p, t.kids[..i]);
    FlatIsLeavesAll(p, t.kids[i+1..]);
    KidShape(t, i, h - 1, lo, hi);
  }

  lemma {:induction false} Widen(p: Pages, a: seq<PageId>, b: seq<PageId>, key: Key)
    ensures AllBelow(CellsOf(p, a), key) && AllBelow(CellsOf(p, b), key) ==> AllBelow(CellsOf(p, a + b), key)
    ensures AllAbove(CellsOf(p, a), key) && AllAbove(CellsOf(p, b), key) ==> AllAbove(CellsOf(p, a + b), key)
  {
    CellsOfSplice(p, a, b);
  }

  lemma {:induction false} Narrow(p: Pages, ls: seq<PageId>, pre: seq<PageId>, a: seq<PageId>, c: seq<PageId>,
                                  b: seq<PageId>, post: seq<PageId>, key: Key)
    requires ls == pre + (a + c + b) + post
    requires AllBelow(CellsOf(p, pre), key) && AllBelow(CellsOf(p, a), key) && AllAbove(CellsOf(p, b), key)
      && AllAbove(CellsOf(p, post), key)
    ensures ls == (pre + a) + c + (b + post) && AllBelow(CellsOf(p, pre + a), key)
      && AllAbove(CellsOf(p, b + post), key)
  {
    Widen(p, pre, a, key);
    Widen(p, b, post, key);
    Regroup(pre, a, c, b, post);
  }

  /** Where a descent for key ends. */
  ghost predicate AtLeaf(p: Pages, ls: seq<PageId>, pre: seq<PageId>, leaf: PageId, post: seq<PageId>, idx: nat,
                         key: Key) {
    && ls == pre + [leaf] + post && leaf in p && p[leaf].LeafPage? && idx <= |p[leaf].cells|
    && AllBelow(CellsOf(p, pre), key) && AllAbove(CellsOf(p, post), key)
    && AllBelow(p[leaf].cells[..idx], key) && AllFrom(p[leaf].cells[idx..], key)
  }

  /** The answer of a descent, as a position in the whole content. */
  lemma {:induction false} LeafRank(p: Pages, ls: seq<PageId>, pre: seq<PageId>, leaf: PageId, post: seq<PageId>,
                                    idx: nat, key: Key)
    requires AtLeaf(p, ls, pre, leaf, post, idx, key)
    ensures var all, pos := CellsOf(p, ls), |CellsOf(p, pre)| + idx;
      pos <= |all| && AllBelow(all[..pos], key) && AllFrom(all[pos..], key)
    ensures var all, pos := CellsOf(p, ls), |CellsOf(p, pre)| + idx;
      idx < |p[leaf].cells| ==> pos < |all| && all[pos] == p[leaf].cells[idx]
    ensures idx == |p[leaf].cells| ==> AllAbove(CellsOf(p, ls)[|CellsOf(p, pre)| + idx..], key)
  {
    hide CellsOf, Less;
    CellsAround(p, pre, leaf, post);
    Ranked(CellsOf(p, pre), p[leaf].cells, CellsOf(p, post), idx, key);
  }

  lemma {:induction false} Ranked(a: seq<Cell>, c: seq<Cell>, b: seq<Cell>, idx: nat, key: Key)
    requires idx <= |c| && AllBelow(a, key) && AllAbove(b, key) && AllBelow(c[..idx], key) && AllFrom(c[idx..], key)
    ensures var all, pos := a + c + b, |a| + idx;
      && AllBelow(all[..pos], key) && AllFrom(all[pos..], key) && (idx < |c| ==> all[pos] == c[idx])
      && (idx == |c| ==> AllAbove(all[pos..], key))
  {
    var all, pos := a + c + b, |a| + idx;
    assert all[..pos] == a + c[..idx] && all[pos..] == c[idx..] + b;
    forall i | 0 <= i < |b| ensures !Less(b[i].key, key) { LessAsymmetric(key, b[i].key); }
  }

  lemma {:induction false} NothingAside(p: Pages, key: Key)
    ensures AllBelow(CellsOf(p, []), key) && AllAbove(CellsOf(p, []), key)
  {}

  lemma {:induction false} OneLeafId(t: Node)
    requires t.Leaf?
    ensures LeafIds(t) == [t.id]
  {}

  lemma {:induction false} OpenRange(key: Key)
    ensures InRange(key, Open, Open)
  {}

  method Descend(t: Tree, key: Key)
    returns (ok: bool, leaf: PageId, idx: nat, ghost pre: seq<PageId>, ghost post: seq<PageId>)
    requires t.Valid() && t.root != 0
    ensures ok <==> t.height < MAX_TREE_HEIGHT
    ensures ok ==> AtLeaf(t.pages, LeafIds(t.shape), pre, leaf, post, idx, key)
  {
    hide Less, PagesKeys, PagesFit, Linked, Ids, IdsAll, Flat, FlatAll, LeafIds, LeafIdsAll, AllBelow, AllAbove;
    var hop := 0;
    leaf, idx, pre, post := t.root, 0, [], [];
    ghost var cur, lo, hi := t.shape, Open, Open;
    RootPage(t.pages, t.shape);
    assert Reps(t.pages, [t.shape][0]);
    assert [] + LeafIds(cur) + [] == LeafIds(cur);
    assert AllBelow(CellsOf(t.pages, []), key) && AllAbove(CellsOf(t.pages, []), key) by { NothingAside(t.pages, key); }
    hide Held, CellsOf, KidsShape, IdsOf, InRange;
    assert InRange(key, Open, Open) by { OpenRange(key); }
    while hop < MAX_TREE_HEIGHT
      invariant hop <= MAX_TREE_HEIGHT && hop <= t.height && (hop == t.height ==> cur.Leaf?)
      invariant cur.id == leaf && Reps(t.pages, cur) && Shape(cur, t.height - hop, lo, hi) && Full(cur)
        && InRange(key, lo, hi)
      invariant LeafIds(t.shape) == pre + LeafIds(cur) + post
      invariant AllBelow(CellsOf(t.pages, pre), key) && AllAbove(CellsOf(t.pages, post), key)
    {
      if t.pages[leaf].LeafPage? {
        var found;
        idx, found := LeafSearch(t.pages[leaf].cells, key);
        OneLeafId(cur);
        return true, leaf, idx, pre, post;
      }
      var i := ChildIndex(t.pages[leaf].keys, key);
      DescendStep(t.pages, cur, i, t.height - hop, lo, hi, key);
      leaf := t.pages[leaf].children[i];
      ghost var a, b := LeafIdsAll(cur.kids[..i]), LeafIdsAll(cur.kids[i+1..]);
      Narrow(t.pages, LeafIds(t.shape), pre, a, LeafIds(cur.kids[i]), b, post, key);
      pre, post, lo, hi, cur := pre + a, b + post, LoAt(cur.keys, lo, i), HiAt(cur.keys, hi, i), cur.kids[i];
      hop := hop + 1;
    }
    ok := false;
  }

  /** The outermost child of a page, and the leaves beside it. */
  lemma {:induction false} EdgeStep(p: Pages, t: Node, left: bool, h: nat, lo: Bound, hi: Bound)
    requires Reps(p, t) && t.Inner? && Shape(t, h, lo, hi)
    ensures h > 0 && |t.kids| == |t.keys| + 1 && p[t.id] == InternalPage(t.keys, IdsOf(t.kids))
    ensures var i := if left then 0 else |t.kids| - 1;
      && LeafIds(t) == LeafIdsAll(t.kids[..i]) + LeafIds(t.kids[i]) + LeafIdsAll(t.kids[i+1..])
      && LeafIdsAll(if left then t.kids[..i] else t.kids[i+1..]) == []
      && Reps(p, t.kids[i]) && Shape(t.kids[i], h - 1, LoAt(t.keys, lo, i), HiAt(t.keys, hi, i))
      && (h == 1 ==> t.kids[i].Leaf?)
  {
    var i := if left then 0 else |t.kids| - 1;
    Around(t.kids, i);
    KidShape(t, i, h - 1, lo, hi);
  }

  /** edgeLeaf: the first or the last leaf. */
  method EdgeLeaf(t: Tree, left: bool) returns (ok: bool, leaf: PageId, ghost pre: seq<PageId>, ghost post: seq<PageId>)
    requires t.Valid() && t.root != 0
    ensures ok <==> t.height < MAX_TREE_HEIGHT
    ensures ok ==> leaf in t.pages && t.pages[leaf].LeafPage? && LeafIds(t.shape) == pre + [leaf] + post
    ensures ok ==> (if left then pre else post) == []
  {
    hide Less, PagesKeys, PagesFit, Linked, Ids, IdsAll, Flat, FlatAll, LeafIds, LeafIdsAll;
    var hop := 0;
    leaf, pre, post := t.root, [], [];
    ghost var cur, lo, hi := t.shape, Open, Open;
    RootPage(t.pages, t.shape);
    assert Reps(t.pages, [t.shape][0]);
    assert [] + LeafIds(cur) + [] == LeafIds(cur);
    hide Held, KidsShape, IdsOf;
    while hop < MAX_TREE_HEIGHT
      invariant hop <= MAX_TREE_HEIGHT && hop <= t.height && (hop == t.height ==> cur.Leaf?)
      invariant cur.id == leaf && Reps(t.pages, cur) && Shape(cur, t.height - hop, lo, hi)
      invariant LeafIds(t.shape) == pre + LeafIds(cur) + post && (if left then pre else post) == []
    {
      if t.pages[leaf].LeafPage? {
        OneLeafId(cur);
        return true, leaf, pre, post;
      }
      var children := t.pages[leaf].children;
      EdgeStep(t.pages, cur, left, t.height - hop, lo, hi);
      var i := if left then 0 else |children| - 1;
      leaf := children[i];
      ghost var a, b := LeafIdsAll(cur.kids[..i]), LeafIdsAll(cur.kids[i+1..]);
      Regroup(pre, a, LeafIds(cur.kids[i]), b, post);
      pre, post, lo, hi, cur := pre + a, b + post, LoAt(cur.keys, lo, i), HiAt(cur.keys, hi, i), cur.kids[i];
      hop := hop + 1;
    }
    ok := false;
  }

  /** Get: the value stored under key, or not found. */
  method Get(t: Tree, key: Key) returns (ok: bool, found: bool, val: seq<Byte>)
    requires t.Valid()
    ensures t.pageCount <= PAGE_ID_LIMIT ==> ok
    ensures ok ==> (found <==> key in t.Contents())
    ensures ok && found ==> val == t.Contents()[key]
  {
    if t.root == 0 { return true, false, []; }
    HeightBound(t.pages, t.shape, t.height, t.pageCount);
    var leaf, idx;
    ghost var pre, post;
    ok, leaf, idx, pre, post := Descend(t, key);
    found, val := false, [];
    if !ok { return; }
    FoundInLeaf(t.pages, t.shape, t.height, pre, leaf, post, idx, key);
    var cells := t.pages[leaf].cells;
    if idx < |cells| && cells[idx].key == key { found, val := true, cells[idx].val; }
  }

  lemma {:induction false} FoundInLeaf(p: Pages, t: Node, h: nat, pre: seq<PageId>, leaf: PageId, post: seq<PageId>,
                                       idx: nat, key: Key)
    requires Held(p, [t], [], []) && Shape(t, h, Open, Open) && AtLeaf(p, LeafIds(t), pre, leaf, post, idx, key)
    ensures key in MapOf(Flat(t)) <==> idx < |p[leaf].cells| && p[leaf].cells[idx].key == key
    ensures idx < |p[leaf].cells| && p[leaf].cells[idx].key == key ==> MapOf(Flat(t))[key] == p[leaf].cells[idx].val
  {
    assert Reps(p, [t][0]);
    FlatIsLeaves(p, t);
    FlatOrdered(t, h, Open, Open);
    LeafRank(p, LeafIds(t), pre, leaf, post, idx, key);
    var all, pos := Flat(t), |CellsOf(p, pre)| + idx;
    FoundAt(all, pos, key);
    if idx == |p[leaf].cells| && pos < |all| { LessIrreflexive(key); assert Less(key, all[pos..][0].key); }
  }

  /** A position on a leaf, as a position in the whole content. */
  ghost predicate OnLeaf(p: Pages, ls: seq<PageId>, pre: seq<PageId>, leaf: PageId, post: seq<PageId>, idx: nat,
                         pos: nat) {
    && ls == pre + [leaf] + post && leaf in p && p[leaf].LeafPage? && idx < |p[leaf].cells|
    && pos == |CellsOf(p, pre)| + idx
  }

  lemma {:induction false} OnLeafCell(p: Pages, ls: seq<PageId>, pre: seq<PageId>, leaf: PageId, post: seq<PageId>,
                                      idx: nat, pos: nat)
    requires OnLeaf(p, ls, pre, leaf, post, idx, pos)
    ensures pos < |CellsOf(p, ls)| && CellsOf(p, ls)[pos] == p[leaf].cells[idx]
    ensures pos + 1 == |CellsOf(p, ls)| <==> idx + 1 == |p[leaf].cells| && CellsOf(p, post) == []
    ensures pos == 0 <==> idx == 0 && CellsOf(p, pre) == []
  {
    CellsAround(p, pre, leaf, post);
  }

  /** The leaf after or before one that the cursor is about to leave. */
  lemma {:induction false} NextLeaf(p: Pages, ls: seq<PageId>, pre: seq<PageId>, leaf: PageId, post: seq<PageId>)
    requires Linked(p, ls) && ls == pre + [leaf] + post && 0 !in p && forall x :: x in ls ==> LeafFull(p, x)
    ensures LeafFull(p, leaf) && (p[leaf].right == 0 <==> post == [])
    ensures post == [] ==> CellsOf(p, post) == []
    ensures post != [] ==>
      p[leaf].right == post[0]
        && OnLeaf(p, ls, pre + [leaf], post[0], post[1..], 0, |CellsOf(p, pre)| + |p[leaf].cells|)
  {
    LinksAt(p, pre, leaf, post);
    assert leaf in ls;
    if post != [] {
      assert post[0] in ls;
      assert ls == (pre + [leaf]) + [post[0]] + post[1..];
      CellsAround(p, pre, leaf, post);
    }
  }

  lemma {:induction false} PrevLeaf(p: Pages, ls: seq<PageId>, pre: seq<PageId>, leaf: PageId, post: seq<PageId>)
    requires Linked(p, ls) && ls == pre + [leaf] + post && 0 !in p && forall x :: x in ls ==> LeafFull(p, x)
    ensures LeafFull(p, leaf) && (p[leaf].left == 0 <==> pre == [])
    ensures pre == [] ==> CellsOf(p, pre) == []
    ensures pre != [] ==> var k, x := |pre| - 1, pre[|pre|-1];
      && p[leaf].left == x && LeafFull(p, x) && CellsOf(p, pre) != []
      && OnLeaf(p, ls, pre[..k], x, [leaf] + post, |p[x].cells| - 1, |CellsOf(p, pre)| - 1)
  {
    LinksAt(p, pre, leaf, post);
    assert leaf in ls;
    if pre != [] {
      var k, x := |pre| - 1, pre[|pre|-1];
      assert pre == pre[..k] + [x] && x in ls;
      assert ls == pre[..k] + [x] + ([leaf] + post);
      CellsAround(p, pre[..k], x, post);
    }
  }

  /** The first cell of the first leaf and the last cell of the last one. */
  lemma {:induction false} EdgeRank(p: Pages, ls: seq<PageId>, pre: seq<PageId>, leaf: PageId, post: seq<PageId>)
    requires ls == pre + [leaf] + post && forall x :: x in ls ==> LeafFull(p, x)
    ensures LeafFull(p, leaf) && CellsOf(p, ls) != []
    ensures pre == [] ==> OnLeaf(p, ls, pre, leaf, post, 0, 0)
    ensures post == [] ==> OnLeaf(p, ls, pre, leaf, post, |p[leaf].cells| - 1, |CellsOf(p, ls)| - 1)
  {
    assert leaf in ls;
    CellsAround(p, pre, leaf, post);
  }

  /** Cursor over one tree. The tree does not change while the cursor is in use. */
  class Cursor {
    const tree: Tree
    var leaf: PageId
    var idx: nat
    var key: Key
    var val: seq<Byte>
    var valid: bool
    ghost var pre: seq<PageId>
    ghost var post: seq<PageId>
    ghost var pos: nat

    constructor (t: Tree)
      ensures tree == t && !valid
    {
      tree, leaf, idx, key, val, valid, pre, post, pos := t, 0, 0, [], [], false, [], [], 0;
    }

    /** The cells in key order. */
    ghost function All(): seq<Cell>
      reads tree
    { if tree.root == 0 then [] else Flat(tree.shape) }

    ghost predicate Inv()
      reads this, tree
    {
      && tree.Valid() && tree.pageCount <= PAGE_ID_LIMIT
      && (valid ==>
           && tree.root != 0 && OnLeaf(tree.pages, LeafIds(tree.shape), pre, leaf, post, idx, pos)
           && pos < |All()| && All()[pos] == Cell(key, val))
    }

    /** What the leaves of a valid tree say. */
    lemma Leaves()
      requires tree.Valid() && tree.root != 0
      ensures Linked(tree.pages, LeafIds(tree.shape)) && Flat(tree.shape) == CellsOf(tree.pages, LeafIds(tree.shape))
      ensures LeafIds(tree.shape) != [] && forall x :: x in LeafIds(tree.shape) ==> LeafFull(tree.pages, x)
      ensures 0 !in tree.pages
    {
      assert Reps(tree.pages, [tree.shape][0]);
      One(tree.shape);
      assert [] + LeafIds(tree.shape) + [] == LeafIds(tree.shape);
      FlatIsLeaves(tree.pages, tree.shape);
      LeavesFull(tree.pages, tree.shape, tree.height, Open, Open);
    }

    method Position(at: PageId, i: nat, ghost a: seq<PageId>, ghost b: seq<PageId>, ghost n: nat)
      requires tree.Valid() && tree.pageCount <= PAGE_ID_LIMIT && tree.root != 0
      requires OnLeaf(tree.pages, LeafIds(tree.shape), a, at, b, i, n)
      modifies this
      ensures Inv() && valid && pos == n
    {
      Leaves();
      OnLeafCell(tree.pages, LeafIds(tree.shape), a, at, b, i, n);
      var c := tree.pages[at].cells[i];
      leaf, idx, key, val, valid := at, i, c.key, c.val, true;
      pre, post, pos := a, b, n;
    }

    /** Seek without a target: the first key. */
    method SeekFirst()
      requires tree.Valid() && tree.pageCount <= PAGE_ID_LIMIT
      modifies this
      ensures Inv() && (valid <==> All() != []) && (valid ==> pos == 0)
    {
      hide Held, CellsOf, LeafIds, Flat, Linked, Less, PagesKeys, PagesFit, Shape;
      valid := false;
      if tree.root == 0 { return; }
      Leaves();
      HeightBound(tree.pages, tree.shape, tree.height, tree.pageCount);
      var ok, at;
      ghost var a, b;
      ok, at, a, b := EdgeLeaf(tree, true);
      EdgeRank(tree.pages, LeafIds(tree.shape), a, at, b);
      if tree.pages[at].cells != [] { Position(at, 0, a, b, 0); }
    }

    /** SeekReverse without a target: the last key. */
    method SeekLast()
      requires tree.Valid() && tree.pageCount <= PAGE_ID_LIMIT
      modifies this
      ensures Inv() && (valid <==> All() != []) && (valid ==> pos == |All()| - 1)
    {
      hide Held, CellsOf, LeafIds, Flat, Linked, Less, PagesKeys, PagesFit, Shape;
      valid := false;
      if tree.root == 0 { return; }
      Leaves();
      HeightBound(tree.pages, tree.shape, tree.height, tree.pageCount);
      var ok, at;
      ghost var a, b;
      ok, at, a, b := EdgeLeaf(tree, false);
      EdgeRank(tree.pages, LeafIds(tree.shape), a, at, b);
      var n := |tree.pages[at].cells|;
      if n > 0 { Position(at, n - 1, a, b, |All()| - 1); }
    }

    /** First key at or above target. */
    method Seek(target: Key)
      requires tree.Valid() && tree.pageCount <= PAGE_ID_LIMIT
      modifies this
      ensures Inv()
      ensures if valid then AllBelow(All()[..pos], target) && AllFrom(All()[pos..], target) else AllBelow(All(), target)
    {
      hide Held, CellsOf, LeafIds, Flat, AllAbove, Linked, Less;
      valid := false;
      if tree.root == 0 { return; }
      Leaves();
      HeightBound(tree.pages, tree.shape, tree.height, tree.pageCount);
      var ok, at, i;
      ghost var a, b;
      ok, at, i, a, b := Descend(tree, target);
      LeafRank(tree.pages, LeafIds(tree.shape), a, at, b, i, target);
      NextLeaf(tree.pages, LeafIds(tree.shape), a, at, b);
      var page := tree.pages[at];
      if i < |page.cells| {
        Position(at, i, a, b, |CellsOf(tree.pages, a)| + i);
      } else if page.right != 0 {
        Position(page.right, 0, a + [at], b[1..], |CellsOf(tree.pages, a)| + i);
      } else {
        CellsAround(tree.pages, a, at, b);
      }
    }

    /** Last key at or below target. */
    method SeekReverse(target: Key)
      requires tree.Valid() && tree.pageCount <= PAGE_ID_LIMIT
      modifies this
      ensures Inv()
      ensures if valid then !Less(target, All()[pos].key) && AllAbove(All()[pos+1..], target)
        else AllAbove(All(), target)
    {
      hide Held, CellsOf, LeafIds, Flat, Linked, Less, PagesKeys, PagesFit, Shape;
      valid := false;
      if tree.root == 0 { return; }
      Leaves();
      HeightBound(tree.pages, tree.shape, tree.height, tree.pageCount);
      var ok, at, i;
      ghost var a, b;
      ok, at, i, a, b := Descend(tree, target);
      ghost var all, rank := Flat(tree.shape), |CellsOf(tree.pages, a)| + i;
      LeafRank(tree.pages, LeafIds(tree.shape), a, at, b, i, target);
      PrevLeaf(tree.pages, LeafIds(tree.shape), a, at, b);
      FlatOrdered(tree.shape, tree.height, Open, Open);
      AtOrBelow(all, rank, target);
      var cells := tree.pages[at].cells;
      if i < |cells| && cells[i].key == target {
        Position(at, i, a, b, rank);
      } else if i > 0 {
        Position(at, i - 1, a, b, rank - 1);
      } else if tree.pages[at].left != 0 {
        var prev := tree.pages[at].left;
        Position(prev, |tree.pages[prev].cells| - 1, a[..|a|-1], [at] + b, rank - 1);
      }
    }

    method Next()
      requires Inv()
      modifies this
      ensures Inv()
      ensures valid <==> old(valid) && old(pos) + 1 < |All()|
      ensures valid ==> pos == old(pos) + 1
    {
      if !valid { return; }
      Leaves();
      hide Held, CellsOf, LeafIds, Flat, Linked, Less;
      var page := tree.pages[leaf];
      OnLeafCell(tree.pages, LeafIds(tree.shape), pre, leaf, post, idx, pos);
      NextLeaf(tree.pages, LeafIds(tree.shape), pre, leaf, post);
      if idx + 1 < |page.cells| {
        OnLeafCell(tree.pages, LeafIds(tree.shape), pre, leaf, post, idx + 1, pos + 1);
        Position(leaf, idx + 1, pre, post, pos + 1);
      } else if page.right == 0 {
        valid := false;
      } else {
        Position(page.right, 0, pre + [leaf], post[1..], pos + 1);
      }
    }

    method Prev()
      requires Inv()
      modifies this
      ensures Inv()
      ensures valid <==> old(valid) && old(pos) > 0
      ensures valid ==> pos == old(pos) - 1
    {
      if !valid { return; }
      Leaves();
      hide Held, CellsOf, LeafIds, Flat, Linked, Less;
      var page := tree.pages[leaf];
      OnLeafCell(tree.pages, LeafIds(tree.shape), pre, leaf, post, idx, pos);
      PrevLeaf(tree.pages, LeafIds(tree.shape), pre, leaf, post);
      if idx > 0 {
        Position(leaf, idx - 1, pre, post, pos - 1);
      } else if page.left == 0 {
        valid := false;
      } else {
        Position(page.left, |tree.pages[page.left].cells| - 1, pre[..|pre|-1], [leaf] + post, pos - 1);
      }
    }
  }

  /** From the first key at or above a target to the last key at or below it. */
  lemma {:induction false} AtOrBelow(all: seq<Cell>, pos: nat, k: Key)
    requires Sorted(all) && pos <= |all| && AllBelow(all[..pos], k) && AllFrom(all[pos..], k)
    ensures if pos < |all| && all[pos].key == k then !Less(k, all[pos].key) && AllAbove(all[pos+1..], k)
            else AllAbove(all[pos..], k) && (pos > 0 ==> !Less(k, all[pos-1].key)) && (pos == 0 ==> AllAbove(all, k))
  {
    Laws();
    if pos > 0 { assert Less(all[..pos][pos-1].key, k); }
    if pos < |all| { assert !Less(all[pos..][0].key, k); }
    if pos == 0 { assert all[pos..] == all; }
    forall i | pos < i < |all| ensures Less(k, all[i].key) { assert Less(all[pos].key, all[i].key); }
  }
}
