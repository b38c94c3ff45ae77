/** What the page stores of insertion and deletion do to the tree they are made on. */
module BTreeStores {
  import opened Bytes
  import opened Powers
  import opened BTreeShape
  import opened BTreeSize
  import opened BTreePages
  import opened BTreeBalance

  /** Going from pages p to q only the pages of one tree changed: own before, own' after. */
  ghost predicate KeptOutside(p: Pages, own: multiset<PageId>, q: Pages, own': multiset<PageId>) {
    && (forall x :: x in p && x !in own ==> x in q && q[x] == p[x] && x !in own')
    && (forall x :: x in q ==> x in own' || (x in p && x !in own))
  }

  lemma {:induction false} KeptOutsideTransitive(p: Pages, a: multiset<PageId>, q: Pages, b: multiset<PageId>,
                                                 r: Pages, c: multiset<PageId>)
    requires KeptOutside(p, a, q, b) && KeptOutside(q, b, r, c)
    ensures KeptOutside(p, a, r, c)
  {}

  lemma {:induction false} PutOrdered(cells: seq<Cell>, k: Key, v: seq<Byte>, lo: Bound, hi: Bound)
    requires Sorted(cells) && CellsIn(cells, lo, hi) && InRange(k, lo, hi)
    ensures Sorted(SeqPut(cells, k, v)) && CellsIn(SeqPut(cells, k, v), lo, hi) && SeqPut(cells, k, v) != []
    ensures cells != [] ==> !Less(k, cells[0].key) ==> SeqPut(cells, k, v)[0].key == cells[0].key
  {
    Laws();
    if cells != [] && Less(cells[0].key, k) {
      PutOrdered(cells[1..], k, v, At(cells[0].key), hi) by {
        assert cells[1..] == [] || Less(cells[0].key, cells[1].key);
      }
      PutAboveHead(cells[1..], k, v, cells[0].key);
    }
  }

  lemma {:induction false} PutAboveHead(cells: seq<Cell>, k: Key, v: seq<Byte>, low: Key)
    requires AllAbove(cells, low) && Less(low, k)
    ensures AllAbove(SeqPut(cells, k, v), low)
  {
    if cells != [] { PutAboveHead(cells[1..], k, v, low); }
  }

  /** A subtree's child absorbed the new key. */
  lemma {:induction false} ChildInserted(t: Node, idx: nat, cks: seq<Key>, cns: seq<Node>, h: nat, lo: Bound,
                                         hi: Bound, key: Key, val: seq<Byte>)
    requires t.Inner? && Shape(t, h, lo, hi) && idx <= |t.keys|
    requires InRange(key, LoAt(t.keys, lo, idx), HiAt(t.keys, hi, idx))
    requires KidsShape(cks, cns, h - 1, LoAt(t.keys, lo, idx), HiAt(t.keys, hi, idx)) && AllFull(cns)
    requires |t.kids| == |t.keys| + 1 && FlatAll(cns) == SeqPut(Flat(t.kids[idx]), key, val)
    ensures KidsShape(t.keys[..idx] + cks + t.keys[idx..], t.kids[..idx] + cns + t.kids[idx+1..], h - 1, lo, hi)
    ensures AllFull(t.kids[..idx] + cns + t.kids[idx+1..])
    ensures FlatAll(t.kids[..idx] + cns + t.kids[idx+1..]) == SeqPut(Flat(t), key, val)
  {
    var a, b := t.kids[..idx], t.kids[idx+1..];
    assert KidsShape(t.keys, t.kids, h - 1, lo, hi) && AllFull(t.kids) && Flat(t) == FlatAll(t.kids);
    hide KidsShape, Shape, Flat, FlatAll, Less, SeqPut, InRange;
    WindowShape(t.keys, t.kids, idx, idx + 1, cks, cns, h - 1, lo, hi);
    Spliced(a, cns, b);
    Around(t.kids, idx);
    FlatAside(t.keys, t.kids, idx, h - 1, lo, hi, key);
    PutAround(FlatAll(a), Flat(t.kids[idx]), FlatAll(b), key, val);
    FullSpliced(a, cns, b) by { assert AllFull(a) && AllFull(b); }
  }

  /** A child that did not split leaves its parent in place. */
  lemma {:induction false} NoSplit(p: Pages, q: Pages, t: Node, idx: nat, cks: seq<Key>, cns: seq<Node>, h: nat,
                                   lo: Bound, hi: Bound, key: Key, val: seq<Byte>,
                                   pre: seq<PageId>, post: seq<PageId>)
    requires Held(p, [t], pre, post) && t.Inner? && Full(t) && Shape(t, h, lo, hi) && idx <= |t.keys|
      && |t.kids| == |t.keys| + 1
    requires InRange(key, LoAt(t.keys, lo, idx), HiAt(t.keys, hi, idx))
    requires KidsShape(cks, cns, h - 1, LoAt(t.keys, lo, idx), HiAt(t.keys, hi, idx)) && AllFull(cns)
    requires FlatAll(cns) == SeqPut(Flat(t.kids[idx]), key, val) && |cns| == 1 && cks == []
      && cns[0].id == t.kids[idx].id
    requires Replaced(p, q, [t.kids[idx]], cns, pre + LeafIdsAll(t.kids[..idx]), LeafIdsAll(t.kids[idx+1..]) + post)
    ensures var ns := [Inner(t.id, t.keys, t.kids[..idx] + cns + t.kids[idx+1..])];
      Replaced(p, q, [t], ns, pre, post) && KidsShape([], ns, h, lo, hi) && AllFull(ns)
        && FlatAll(ns) == SeqPut(Flat(t), key, val)
  {
    var n := Inner(t.id, t.keys, t.kids[..idx] + cns + t.kids[idx+1..]);
    ChildInserted(t, idx, cks, cns, h, lo, hi, key, val);
    ChildKept(p, q, t, idx, cks, cns, pre, post);
    hide Held, Swapped, Replaced, Flat, FlatAll, SeqPut, LeafIdsAll;
    KidsOne(n, h, lo, hi);
  }

  lemma {:induction false} ChildHeld(p: Pages, t: Node, idx: nat, pre: seq<PageId>, post: seq<PageId>)
    requires Held(p, [t], pre, post) && t.Inner? && idx < |t.kids|
    ensures Held(p, [t.kids[idx]], pre + LeafIdsAll(t.kids[..idx]), LeafIdsAll(t.kids[idx+1..]) + post)
  {
    assert t.kids == t.kids[..idx] + [t.kids[idx]] + t.kids[idx+1..];
    HeldParts(p, t, t.kids[..idx], [t.kids[idx]], t.kids[idx+1..], pre, post);
  }

  lemma {:induction false} ParentPage(p: Pages, t: Node, h: nat, lo: Bound, hi: Bound, pre: seq<PageId>,
                                      post: seq<PageId>)
    requires Held(p, [t], pre, post) && t.Inner? && Shape(t, h, lo, hi)
    ensures t.id in p && p[t.id] == InternalPage(t.keys, IdsOf(t.kids)) && SortedKeys(t.keys)
    ensures h > 0 && |t.kids| == |t.keys| + 1
  {
    assert Reps(p, [t][0]);
  }

  lemma {:induction false} ChildReady(p: Pages, t: Node, idx: nat, h: nat, lo: Bound, hi: Bound, pre: seq<PageId>,
                                      post: seq<PageId>)
    requires Held(p, [t], pre, post) && t.Inner? && h > 0 && Shape(t, h, lo, hi) && idx <= |t.keys| && idx < |t.kids|
    ensures Held(p, [t.kids[idx]], pre + LeafIdsAll(t.kids[..idx]), LeafIdsAll(t.kids[idx+1..]) + post)
    ensures Shape(t.kids[idx], h - 1, LoAt(t.keys, lo, idx), HiAt(t.keys, hi, idx)) && Full(t.kids[idx])
  {
    ChildHeld(p, t, idx, pre, post);
  }

  /** The child was replaced by one of the same id: the parent page stays as it is. */
  lemma {:induction false} ChildKept(p: Pages, q: Pages, t: Node, idx: nat, cks: seq<Key>, cns: seq<Node>,
                                     pre: seq<PageId>, post: seq<PageId>)
    requires Held(p, [t], pre, post) && t.Inner? && idx <= |t.keys| && |t.kids| == |t.keys| + 1
    requires Replaced(p, q, [t.kids[idx]], cns, pre + LeafIdsAll(t.kids[..idx]), LeafIdsAll(t.kids[idx+1..]) + post)
    requires |cns| == 1 && cks == [] && cns[0].id == t.kids[idx].id
    ensures var kids' := t.kids[..idx] + cns + t.kids[idx+1..];
      && t.keys[..idx] + cks + t.keys[idx..] == t.keys
      && Replaced(p, q, [t], [Inner(t.id, t.keys, kids')], pre, post)
      && FlatAll([Inner(t.id, t.keys, kids')]) == FlatAll(kids')
  {
    hide Swapped, Held;
    var a, c, b := t.kids[..idx], t.kids[idx], t.kids[idx+1..];
    assert t.kids == a + [c] + b;
    ParentKept(p, q, t, a, c, b, cns, pre, post);
    assert IdsOf(a + cns + b) == IdsOf(t.kids) by {
      var kids' := a + cns + b;
      forall i | 0 <= i < |kids'| ensures kids'[i].id == t.kids[i].id { if i != idx { assert kids'[i] == t.kids[i]; } }
    }
    ReplaceParts(p, q, q, t, a, [c], b, cns, t.keys, pre, post);
    OneInner(t.id, t.keys, a + cns + b);
  }

  /** insertBytes and insertPage on the parent of a split child. */
  lemma {:induction false} SeparatorIn(keys: seq<Key>, kids: seq<Node>, idx: nat, sep: Key, right: PageId,
                                       cns: seq<Node>, s: iset<Key>)
    requires idx < |kids| == |keys| + 1 && |cns| == 2 && cns[0].id == kids[idx].id && cns[1].id == right
    requires sep in s && forall i :: 0 <= i < |keys| ==> keys[i] in s
    ensures var keys' := keys[..idx] + [sep] + keys[idx..];
      (forall i :: 0 <= i < |keys'| ==> keys'[i] in s) && keys'[..idx] + keys'[idx+1..] == keys
    ensures IdsOf(kids)[..idx+1] + [right] + IdsOf(kids)[idx+1..] == IdsOf(kids[..idx] + cns + kids[idx+1..])
  {
    var keys' := keys[..idx] + [sep] + keys[idx..];
    forall i | 0 <= i < |keys'| ensures keys'[i] in s {
      if i < idx { assert keys'[i] == keys[i]; } else if i > idx { assert keys'[i] == keys[i-1]; }
    }
    var u, v := IdsOf(kids)[..idx+1] + [right] + IdsOf(kids)[idx+1..], kids[..idx] + cns + kids[idx+1..];
    forall i | 0 <= i < |v| ensures u[i] == v[i].id {
      if i < idx { assert v[i] == kids[i]; } else if i > idx + 1 { assert v[i] == kids[i-1]; }
    }
  }

  /** The stores of splitInternal split the page. */
  lemma {:induction false} InternalSplitDone(was: Pages, p: Pages, q: Pages, id: PageId, right: PageId,
                                             keys: seq<Key>, kids: seq<Node>, mid: nat,
                                             h: nat, lo: Bound, hi: Bound, pre: seq<PageId>, post: seq<PageId>,
                                             s: iset<Key>)
    requires h > 0 && |kids| == |keys| + 1 && KidsShape(keys, kids, h - 1, lo, hi) && AllFull(kids)
      && 0 < mid < |keys| - 1 && id in p && right !in p
    requires was == p[id := InternalPage(keys, IdsOf(kids))] && Held(was, [Inner(id, keys, kids)], pre, post)
    requires q == p[right := InternalPage([], [])][id := InternalPage(keys[..mid], IdsOf(kids)[..mid+1])][right :=
      InternalPage(keys[mid+1..], IdsOf(kids)[mid+1..])]
    requires PagesKeys(p, s) && forall i :: 0 <= i < |keys| ==> keys[i] in s
    ensures var ns := [Inner(id, keys[..mid], kids[..mid+1]), Inner(right, keys[mid+1..], kids[mid+1..])];
      && Replaced(was, q, [Inner(id, keys, kids)], ns, pre, post) && PagesKeys(q, s)
      && KidsShape([keys[mid]], ns, h, lo, hi) && AllFull(ns) && FlatAll(ns) == FlatAll(kids)
  {
    hide Held, Swapped, KidsShape, Less, Flat, FlatAll, Ids, IdsAll, LeafIds, LeafIdsAll, Replaced;
    var l, r := kids[..mid+1], kids[mid+1..];
    assert kids == l + r && IdsOf(l) == IdsOf(kids)[..mid+1] && IdsOf(r) == IdsOf(kids)[mid+1..];
    assert q == was[id := InternalPage(keys[..mid], IdsOf(l))][right := InternalPage(keys[mid+1..], IdsOf(r))];
    InnerSplit(was, q, id, keys, keys[..mid], l, right, keys[mid+1..], r, pre, post);
    TwoInners(id, keys[..mid], l, right, keys[mid+1..], r);
    InnerWindow(id, right, keys, kids, mid, h, lo, hi);
  }

  /** Work below a child leaves the parent page alone. */
  lemma {:induction false} ParentKept(p: Pages, q: Pages, t: Node, a: seq<Node>, c: Node, b: seq<Node>,
                                      cns: seq<Node>, pre: seq<PageId>, post: seq<PageId>)
    requires Held(p, [t], pre, post) && t.Inner? && t.kids == a + [c] + b
    requires Swapped(p, q, [c], cns, pre + LeafIdsAll(a), LeafIdsAll(b) + post)
    ensures t.id in p && t.id in q && q[t.id] == p[t.id] == InternalPage(t.keys, IdsOf(t.kids))
  {
    HeldParts(p, t, a, [c], b, pre, post);
    assert Reps(p, [t][0]);
  }

  lemma {:induction false} FullSpliced(a: seq<Node>, b: seq<Node>, c: seq<Node>)
    requires AllFull(a) && AllFull(b) && AllFull(c)
    ensures AllFull(a + b + c)
  {
    var s := a + b + c;
    forall i | 0 <= i < |s| ensures Full(s[i]) {
      if i < |a| { assert s[i] == a[i]; } else if i < |a| + |b| { assert s[i] == b[i - |a|]; } else {
        assert s[i] == c[i - |a| - |b|];
      }
    }
  }

  /** The stores of splitLeaf split the leaf. */
  lemma {:induction false} LeafSplitDone(p: Pages, q: Pages, id: PageId, was: seq<Cell>, r: PageId, l: seq<Cell>,
                                         e: seq<Cell>, lo: Bound, hi: Bound,
                                         pre: seq<PageId>, post: seq<PageId>, s: iset<Key>)
    requires Held(p, [Leaf(id, was)], pre, post) && id in p && p[id].LeafPage? && r !in p && 0 !in p
    requires Sorted(l + e) && CellsIn(l + e, lo, hi) && l != [] && e != []
    requires PagesKeys(p, s) && forall i :: 0 <= i < |l + e| ==> (l + e)[i].key in s
    requires q == SplitStores(p, id, r, l, e)
    ensures Replaced(p, q, [Leaf(id, was)], [Leaf(id, l), Leaf(r, e)], pre, post) && PagesKeys(q, s)
    ensures KidsShape([e[0].key], [Leaf(id, l), Leaf(r, e)], 0, lo, hi) && FlatAll([Leaf(id, l), Leaf(r, e)]) == l + e
    ensures AllFull([Leaf(id, l), Leaf(r, e)])
  {
    SiblingOf(p, id, was, pre, post);
    assert p[r := LeafPage(0, 0, [])][id := LeafPage(p[id].left, r, l)][r := LeafPage(id, p[id].right, e)]
        == p[r := LeafPage(id, p[id].right, e)][id := LeafPage(p[id].left, r, l)];
    LeafSplit(p, q, id, was, r, l, e, pre, post);
    TwoLeaves(id, l, r, e);
    LeafWindow(id, l, r, e, lo, hi);
    SplitKeys(p, q, id, r, l, e, s);
  }

  ghost function SplitStores(p: Pages, id: PageId, r: PageId, l: seq<Cell>, e: seq<Cell>): Pages
    requires id in p && p[id].LeafPage?
  {
    var q := p[r := LeafPage(0, 0, [])][id := LeafPage(p[id].left, r, l)][r := LeafPage(id, p[id].right, e)];
    var sib := p[id].right;
    if sib != 0 && sib in q && q[sib].LeafPage? then q[sib := q[sib].(left := r)] else q
  }

  lemma {:induction false} SplitKeys(p: Pages, q: Pages, id: PageId, r: PageId, l: seq<Cell>, e: seq<Cell>,
                                     s: iset<Key>)
    requires id in p && p[id].LeafPage? && q == SplitStores(p, id, r, l, e)
    requires PagesKeys(p, s) && forall i :: 0 <= i < |l + e| ==> (l + e)[i].key in s
    ensures PagesKeys(q, s)
  {
    assert forall i :: 0 <= i < |l| ==> l[i] == (l + e)[i];
    assert forall i :: 0 <= i < |e| ==> e[i] == (l + e)[|l| + i];
    assert PageKeys(LeafPage(p[id].left, r, l), s) && PageKeys(LeafPage(id, p[id].right, e), s);
  }

  /** The right link of the second leaf of a pair. */
  lemma {:induction false} MergeSibling(p: Pages, n: Node, l: nat, pre: seq<PageId>, post: seq<PageId>)
    requires Held(p, [n], pre, post) && n.Inner? && l + 1 < |n.kids| && n.kids[l].Leaf? && n.kids[l+1].Leaf?
    ensures var sibs, x, r := RightOf(n, l, post), n.kids[l].id, n.kids[l+1].id;
      && x in p && r in p && p[x].LeafPage? && p[r].LeafPage? && p[r].right == First(sibs, 0) && x != r
      && (sibs != [] ==> sibs[0] in p && p[sibs[0]].LeafPage? && sibs[0] != x && sibs[0] != r && sibs[0] != n.id)
  {
    var x, r, a, b := n.kids[l].id, n.kids[l+1].id, LeftOf(n, l, pre), RightOf(n, l, post);
    PairHeld(p, n, l, pre, post);
    TwoLeaves(x, n.kids[l].cells, r, n.kids[l+1].cells);
    assert a + [x, r] + b == (a + [x]) + [r] + b;
    LinksAt(p, a + [x], r, b);
    PostOnce(a + [x], r, b);
    assert x in a + [x];
  }

  lemma {:induction false} MergedIds(n: Node, l: nat, j: Node)
    requires n.Inner? && l < |n.keys| && l + 1 < |n.kids| && j.id == n.kids[l].id
    ensures IdsOf(n.kids)[..l+1] + IdsOf(n.kids)[l+2..] == IdsOf(SpliceKids(n, l, [j]))
    ensures SpliceKeys(n, l, []) == n.keys[..l] + n.keys[l+1..]
  {}

  lemma {:induction false} PairIds(n: Node, l: nat, k: Key, ns: seq<Node>)
    requires n.Inner? && l < |n.keys| && l + 1 < |n.kids| && |ns| == 2 && ns[0].id == n.kids[l].id
      && ns[1].id == n.kids[l+1].id
    ensures IdsOf(SpliceKids(n, l, ns)) == IdsOf(n.kids)
    ensures SpliceKeys(n, l, [k]) == n.keys[l := k]
  {}

  /** The stores of mergeLeaves, in their order. */
  lemma {:induction false} LeavesMerged(p: Pages, q: Pages, n: Node, l: nat, h: nat, lo: Bound, hi: Bound,
                                        pre: seq<PageId>, post: seq<PageId>, s: iset<Key>)
    requires Held(p, [n], pre, post) && n.Inner? && KidsShape(n.keys, n.kids, h, lo, hi) && PagesKeys(p, s) && 0 !in p
    requires l < |n.keys| && n.kids[l].Leaf? && n.kids[l+1].Leaf?
    requires var x, r, e := n.kids[l].id, n.kids[l+1].id, n.kids[l].cells + n.kids[l+1].cells;
      && x in p && r in p && p[x].LeafPage? && p[r].LeafPage?
      && var q1 := p[x := LeafPage(p[x].left, p[r].right, e)];
      && var sib := p[r].right;
      && var q2 := if sib != 0 && sib in q1 && q1[sib].LeafPage? then q1[sib := q1[sib].(left := x)] else q1;
      && q == q2[n.id := InternalPage(n.keys[..l] + n.keys[l+1..], IdsOf(n.kids)[..l+1] + IdsOf(n.kids)[l+2..])] - {r}
    ensures var n' := Inner(n.id, SpliceKeys(n, l, []),
      SpliceKids(n, l, [Leaf(n.kids[l].id, n.kids[l].cells + n.kids[l+1].cells)]));
      Rebalanced(p, q, n, n', h, lo, hi, pre, post) && PagesKeys(q, s) && Held(q, [n'], pre, post)
        && |n'.kids| == |n'.keys| + 1
  {
    hide Held, Swapped;
    var x, r, c, d := n.kids[l].id, n.kids[l+1].id, n.kids[l].cells, n.kids[l+1].cells;
    var a, b := LeftOf(n, l, pre), RightOf(n, l, post);
    PairHeld(p, n, l, pre, post);
    MergeSibling(p, n, l, pre, post);
    var q2 := Relink(p[x := LeafPage(p[x].left, p[r].right, c + d)], b, x);
    LeafMerge(p, q2 - {r}, x, c, r, d, c + d, a, b);
    LeafPair(n, l, h, lo, hi);
    OneLeaf(x, c + d, LoAt(n.keys, lo, l), HiAt(n.keys, hi, l + 1));
    MergedIds(n, l, Leaf(x, c + d));
    PairReplaced(p, q2 - {r}, q, n, l, [], [Leaf(x, c + d)], h, lo, hi, pre, post);
    MergedKeys(p, q, n, l, s);
  }

  lemma {:induction false} MergedKeys(p: Pages, q: Pages, n: Node, l: nat, s: iset<Key>)
    requires PagesKeys(p, s) && n.Inner? && l < |n.keys| && l + 1 < |n.kids| && n.id in p
      && p[n.id] == InternalPage(n.keys, IdsOf(n.kids))
    requires n.kids[l].Leaf? && n.kids[l+1].Leaf? && Reps(p, n.kids[l]) && Reps(p, n.kids[l+1])
    requires n.id in q && q[n.id].InternalPage? && q[n.id].keys == n.keys[..l] + n.keys[l+1..]
    requires n.kids[l].id in q && q[n.kids[l].id].LeafPage?
      && q[n.kids[l].id].cells == n.kids[l].cells + n.kids[l+1].cells
    requires forall y :: y in q && y != n.id && y != n.kids[l].id ==> y in p && SameBody(p[y], q[y])
    ensures PagesKeys(q, s)
  {
    assert PageKeys(p[n.id], s) && PageKeys(p[n.kids[l].id], s) && PageKeys(p[n.kids[l+1].id], s);
    assert PageKeys(q[n.id], s) && PageKeys(q[n.kids[l].id], s);
    forall y | y in q ensures PageKeys(q[y], s) { if y in p { assert PageKeys(p[y], s); } }
  }

  lemma {:induction false} FirstKid(t: Node, h: nat, lo: Bound, hi: Bound)
    requires t.Inner? && Shape(t, h, lo, hi) && Full(t)
    ensures t.kids != [] && Shape(t.kids[0], h - 1, lo, HiAt(t.keys, hi, 0)) && Full(t.kids[0])
    ensures Flat(t.kids[0]) != [] && Flat(t) != [] && Flat(t)[0] == Flat(t.kids[0])[0]
    ensures h == 1 ==> t.kids[0].Leaf?
  {
    assert Shape(t.kids[0], h - 1, LoAt(t.keys, lo, 0), HiAt(t.keys, hi, 0));
    FlatOrdered(t.kids[0], h - 1, lo, HiAt(t.keys, hi, 0));
  }

  lemma {:induction false} KidShape(n: Node, c: nat, h: nat, lo: Bound, hi: Bound)
    requires n.Inner? && KidsShape(n.keys, n.kids, h, lo, hi) && c < |n.kids|
    ensures c <= |n.keys| && Shape(n.kids[c], h, LoAt(n.keys, lo, c), HiAt(n.keys, hi, c))
  {}

  lemma {:induction false} FirstKeyIn(p: Pages, t: Node, s: iset<Key>)
    requires Reps(p, t) && PagesKeys(p, s) && Flat(t) != []
    ensures Flat(t)[0].key in s
    decreases t, 1
  {
    if t.Leaf? { assert PageKeys(p[t.id], s); } else { FirstKeyInAll(p, t.kids, s); }
  }

  lemma {:induction false} FirstKeyInAll(p: Pages, kids: seq<Node>, s: iset<Key>)
    requires RepsAll(p, kids) && PagesKeys(p, s) && FlatAll(kids) != []
    ensures FlatAll(kids)[0].key in s
    decreases kids, 0
  {
    if Flat(kids[0]) != [] { FirstKeyIn(p, kids[0], s); }
    else { assert FlatAll(kids) == FlatAll(kids[1..]); FirstKeyInAll(p, kids[1..], s); }
  }

  lemma {:induction false} TwoFlat(a: Node, b: Node)
    ensures FlatAll([a, b]) == Flat(a) + Flat(b)
  {
    assert [a, b] == [a] + [b];
    Append([a], [b]);
    One(a);
    One(b);
  }

  lemma {:induction false} SeparatorSynced(p: Pages, q: Pages, n: Node, c: nat, k: Key, h: nat, lo: Bound,
                                           hi: Bound, pre: seq<PageId>, post: seq<PageId>, s: iset<Key>)
    requires Held(p, [n], pre, post) && n.Inner? && KidsShape(n.keys, n.kids, h, lo, hi) && PagesKeys(p, s)
    requires |n.kids| == |n.keys| + 1 && 0 < c <= |n.keys| && AllFull(n.kids) && k in s && Flat(n.kids[c]) != []
      && Flat(n.kids[c])[0].key == k
    requires q == p[n.id := InternalPage(n.keys[c-1 := k], IdsOf(n.kids))]
    ensures Rebalanced(p, q, n, Inner(n.id, n.keys[c-1 := k], n.kids), h, lo, hi, pre, post) && PagesKeys(q, s)
  {
    hide Held, Swapped, KidsShape, Less, Ids, LeafIds;
    var ns := [n.kids[c-1], n.kids[c]];
    PairHeld(p, n, c - 1, pre, post);
    ReplacedSelf(p, ns, LeftOf(n, c - 1, pre), RightOf(n, c - 1, post));
    SeparatorRaised(n, c, k, h, lo, hi);
    assert SpliceKids(n, c - 1, ns) == n.kids && SpliceKeys(n, c - 1, [k]) == n.keys[c-1 := k];
    hide SpliceKids, SpliceKeys, Flat, Ids, LeafIds, Less;
    TwoFlat(n.kids[c-1], n.kids[c]);
    PairReplaced(p, p, q, n, c - 1, [k], ns, h, lo, hi, pre, post);
    assert PageKeys(p[n.id], s);
    assert PageKeys(q[n.id], s);
  }

  lemma {:induction false} RepairedShape(m: Node, h: nat, lo: Bound, hi: Bound)
    requires m.Inner? && KidsShape(m.keys, m.kids, h, lo, hi) && AllFull(m.kids)
    ensures Shape(m, h + 1, lo, hi) && Flat(m) == FlatAll(m.kids)
  {}

  /** The only child of a root without separators takes its place. */
  lemma {:induction false} Collapsed(p0: Pages, p: Pages, q: Pages, n: Node, m: Node, h: nat, lo: Bound, hi: Bound,
                                     pre: seq<PageId>, post: seq<PageId>, s: iset<Key>)
    requires Rebalanced(p0, p, n, m, h, lo, hi, pre, post) && m.keys == [] && PagesKeys(p, s) && q == p - {m.id}
    ensures |m.kids| == 1 && Replaced(p0, q, [n], [m.kids[0]], pre, post) && Shape(m.kids[0], h, lo, hi)
    ensures Flat(m.kids[0]) == FlatAll(n.kids) && PagesKeys(q, s)
  {
    var k := m.kids[0];
    assert m.kids == [k];
    KidsOne(k, h, lo, hi);
    One(k);
    CollapsedHeld(p, q, m.id, k, pre, post);
    ReplacedTransitive(p0, p, q, [n], [m], [k], pre, post);
  }

  lemma {:induction false} CollapsedHeld(p: Pages, q: Pages, id: PageId, k: Node, pre: seq<PageId>, post: seq<PageId>)
    requires Held(p, [Inner(id, [], [k])], pre, post) && q == p - {id}
    ensures Replaced(p, q, [Inner(id, [], [k])], [k], pre, post)
  {
    var t := Inner(id, [], [k]);
    OneInner(id, [], [k]);
    One(k);
    NoDupPair(id, id, Ids(k));
    assert [t][0] == t && Reps(p, t) && [k][0] == k;
    RepsIds(p, k);
    assert Held(q, [k], pre, post) by {
      RepsFrame(p, q, k);
      var ls := pre + LeafIds(k) + post;
      LinkedLeaves(p, 0, ls, 0);
      assert id !in ls by { LeafIdsOwned(k); assert id in IdsAll([t]); }
      ChainFrame(p, q, 0, ls, 0);
    }
  }

  const PAGE_ID_LIMIT: nat := 0x1_0000_0000_0000_0000

  /** Keys in the subset are keys in the larger set. */
  lemma {:induction false} KeysWiden(p: Pages, s: iset<Key>, s': iset<Key>)
    requires PagesKeys(p, s) && s <= s'
    ensures PagesKeys(p, s')
  {
    forall x | x in p ensures PageKeys(p[x], s') { assert PageKeys(p[x], s); }
  }

  /** Every internal page has two children, so a tree of height h has 2^h leaves. */
  lemma {:induction false} ManyLeaves(t: Node, h: nat, lo: Bound, hi: Bound)
    requires Shape(t, h, lo, hi) && Full(t)
    ensures |LeafIds(t)| >= Pow2(h)
    decreases t
  {
    if t.Inner? {
      var a, b, c := t.kids[0], t.kids[1], t.kids[2..];
      assert Shape(a, h - 1, LoAt(t.keys, lo, 0), HiAt(t.keys, hi, 0))
        && Shape(b, h - 1, LoAt(t.keys, lo, 1), HiAt(t.keys, hi, 1));
      ManyLeaves(a, h - 1, LoAt(t.keys, lo, 0), HiAt(t.keys, hi, 0));
      ManyLeaves(b, h - 1, LoAt(t.keys, lo, 1), HiAt(t.keys, hi, 1));
      assert t.kids == [a] + [b] + c;
      Spliced([a], [b], c);
      One(a); One(b);
    }
  }

  lemma {:induction false} Pigeons(ls: seq<PageId>, n: nat)
    requires Distinct(ls) && forall i :: 0 <= i < |ls| ==> ls[i] < n
    ensures |ls| <= n
  {
    assert |ls| > 0 ==> ls[0] < n;
    if n > 0 {
      if i :| 0 <= i < |ls| && ls[i] == n - 1 {
        var rest := ls[..i] + ls[i+1..];
        forall j | 0 <= j < |rest| ensures rest[j] == ls[if j < i then j else j + 1] && rest[j] < n - 1 {}
        forall j, k | 0 <= j < k < |rest| ensures rest[j] != rest[k] {}
        Pigeons(rest, n - 1);
      } else {
        Pigeons(ls, n - 1);
      }
    }
  }

  /** Page ids are 64-bit, so no tree reaches the height limit. */
  lemma {:induction false} HeightBound(p: Pages, t: Node, h: nat, pageCount: nat)
    requires Held(p, [t], [], []) && Shape(t, h, Open, Open) && Full(t) && forall x :: x in p ==> 0 < x < pageCount
    ensures pageCount <= PAGE_ID_LIMIT ==> h < MAX_TREE_HEIGHT
  {
    One(t);
    ManyLeaves(t, h, Open, Open);
    assert [] + LeafIds(t) + [] == LeafIds(t);
    RepsAllIds(p, [t]);
    LeafIdsOwned(t);
    if h >= MAX_TREE_HEIGHT {
      Pow2Grows(64, h);
      Pow2Bytes();
      forall i | 0 <= i < |LeafIds(t)| ensures 0 < LeafIds(t)[i] < pageCount { assert LeafIds(t)[i] in LeafIds(t); }
      PigeonsAboveZero(LeafIds(t), pageCount);
    }
  }

  lemma {:induction false} PigeonsAboveZero(ls: seq<PageId>, n: nat)
    requires Distinct(ls) && (forall i :: 0 <= i < |ls| ==> 0 < ls[i] < n) && n > 0
    ensures |ls| < n
  {
    DistinctInsert(ls, 0, []);
    assert ls + [] == ls;
    Pigeons(ls + [0] + [], n);
  }

  lemma {:induction false} LeafDropped(p: Pages, q: Pages, t: Node, s: iset<Key>)
    requires Held(p, [t], [], []) && t.Leaf? && q == p - {t.id} && PagesKeys(p, s)
    ensures Replaced(p, q, [t], [], [], []) && PagesKeys(q, s) && FlatAll([]) == []
  {
    One(t);
    assert [] + LeafIdsAll([]) + [] == [];
  }

  lemma {:induction false} LeafShrunk(p: Pages, q: Pages, t: Node, i: nat, lo: Bound, hi: Bound, pre: seq<PageId>,
                                      post: seq<PageId>, s: iset<Key>)
    requires Held(p, [t], pre, post) && t.Leaf? && t.id in p && p[t.id].LeafPage? && p[t.id].cells == t.cells
      && i < |t.cells|
    requires Sorted(t.cells) && CellsIn(t.cells, lo, hi) && PagesKeys(p, s)
    requires q == p[t.id := LeafPage(p[t.id].left, p[t.id].right, t.cells[..i] + t.cells[i+1..])]
    ensures var t' := Leaf(t.id, t.cells[..i] + t.cells[i+1..]);
      Replaced(p, q, [t], [t'], pre, post) && PagesKeys(q, s) && Shape(t', 0, lo, hi) && FlatAll([t']) == t'.cells
  {
    var d := t.cells[..i] + t.cells[i+1..];
    LeafRewritten(p, q, t.id, t.cells, d, pre, post);
    DelOrdered(t.cells, i, lo, hi);
    One(Leaf(t.id, d));
    assert PageKeys(p[t.id], s);
    assert PageKeys(q[t.id], s);
  }

  lemma {:induction false} DelOrdered(cells: seq<Cell>, i: nat, lo: Bound, hi: Bound)
    requires Sorted(cells) && CellsIn(cells, lo, hi) && i < |cells|
    ensures Sorted(cells[..i] + cells[i+1..]) && CellsIn(cells[..i] + cells[i+1..], lo, hi)
  {
    var d := cells[..i] + cells[i+1..];
    assert forall j :: 0 <= j < |d| ==> d[j] == cells[if j < i then j else j + 1];
  }

  /** Deleting an absent key from a child changes nothing above it either. */
  lemma {:induction false} ChildAbsent(t: Node, idx: nat, h: nat, lo: Bound, hi: Bound, key: Key)
    requires t.Inner? && Shape(t, h, lo, hi) && idx <= |t.keys| && |t.kids| == |t.keys| + 1
    requires InRange(key, LoAt(t.keys, lo, idx), HiAt(t.keys, hi, idx))
    ensures SeqDel(Flat(t), key) == FlatAll(t.kids[..idx]) + SeqDel(Flat(t.kids[idx]), key) + FlatAll(t.kids[idx+1..])
    ensures SeqDel(Flat(t), key) == Flat(t) <==> SeqDel(Flat(t.kids[idx]), key) == Flat(t.kids[idx])
  {
    Around(t.kids, idx);
    FlatAside(t.keys, t.kids, idx, h - 1, lo, hi, key);
    DelAround(FlatAll(t.kids[..idx]), Flat(t.kids[idx]), FlatAll(t.kids[idx+1..]), key);
    Middle(FlatAll(t.kids[..idx]), SeqDel(Flat(t.kids[idx]), key), Flat(t.kids[idx]), FlatAll(t.kids[idx+1..]));
  }

  lemma {:induction false} Middle(a: seq<Cell>, b: seq<Cell>, b': seq<Cell>, c: seq<Cell>)
    ensures a + b + c == a + b' + c <==> b == b'
  {
    if a + b + c == a + b' + c {
      var u := a + b + c;
      assert |b| == |b'| && b == u[|a|..|a|+|b|] && b' == u[|a|..|a|+|b|];
    }
  }

  lemma {:induction false} RemoveRepaired(p: Pages, q: Pages, r: Pages, t: Node, n: Node, t': Node,
                                          pre: seq<PageId>, post: seq<PageId>)
    requires Replaced(p, q, [t], [n], pre, post) && Replaced(q, r, [n], [t'], pre, post)
    ensures Replaced(p, r, [t], [t'], pre, post) && FlatAll([t']) == Flat(t')
  {
    ReplacedTransitive(p, q, r, [t], [n], [t'], pre, post);
    One(t');
  }

  lemma {:induction false} RootPage(p: Pages, t: Node)
    requires Held(p, [t], [], [])
    ensures t.id in p
  {
    assert Reps(p, [t][0]);
  }

  lemma {:induction false} EmptyFlat()
    ensures MapOf(FlatAll([])) == map[] && IdsAll([]) == multiset{}
  {}

  lemma {:induction false} AbsentRoot(t: Node, h: nat, key: Key)
    requires Shape(t, h, Open, Open)
    ensures key !in MapOf(Flat(t)) ==> SeqDel(Flat(t), key) == Flat(t)
  {
    if key !in MapOf(Flat(t)) {
      MapMembers(Flat(t), key);
      DelAbsent(Flat(t), key);
    }
  }

  lemma {:induction false} RootRemoved(p: Pages, q: Pages, t: Node, ns: seq<Node>, h: nat, key: Key)
    requires Shape(t, h, Open, Open) && FlatAll(ns) == SeqDel(Flat(t), key) && Swapped(p, q, [t], ns, [], [])
    ensures MapOf(FlatAll(ns)) == MapOf(Flat(t)) - {key}
    ensures KeptOutside(p, Ids(t), q, IdsAll(ns))
  {
    One(t);
    FlatOrdered(t, h, Open, Open);
    MapDel(Flat(t), key);
  }

  lemma {:induction false} ChildPage(p: Pages, n: Node, idx: nat, pre: seq<PageId>, post: seq<PageId>)
    requires Held(p, [n], pre, post) && n.Inner? && idx < |n.kids|
    ensures n.id in p && p[n.id] == InternalPage(n.keys, IdsOf(n.kids))
    ensures Reps(p, n.kids[idx]) && n.kids[idx].id in p
  {
    assert Reps(p, [n][0]);
  }

  lemma {:induction false} EmptyLeafFits(ps: PageSize, c: seq<Cell>, d: seq<Cell>)
    requires LeafFits(ps, c) && LeafFits(ps, d) && (c == [] || d == [])
    ensures LeafFits(ps, c + d)
  { assert [] + d == d && c + [] == c; }

  /** The slices of borrowInternal are slices of the joined run. */
  lemma {:induction false} Shifted(a: seq<Key>, k: Key, b: seq<Key>, u: seq<Node>, v: seq<Node>, m: nat)
    requires |u| == |a| + 1 && |v| == |b| + 1 && ((m == |a| + 1 && |b| >= 1) || m + 1 == |a|)
    ensures var j, w := a + [k] + b, u + v;
      if m == |a| + 1
      then && j[..m] == a + [k] && j[m] == b[0] && j[m+1..] == b[1..]
           && IdsOf(w[..m+1]) == IdsOf(u) + [IdsOf(v)[0]] && IdsOf(w[m+1..]) == IdsOf(v)[1..]
      else && j[..m] == a[..m] && j[m] == a[m] && j[m+1..] == [k] + b
           && IdsOf(w[..m+1]) == IdsOf(u)[..m+1] && IdsOf(w[m+1..]) == [IdsOf(u)[m+1]] + IdsOf(v)
  {}

  lemma {:induction false} MovedKeyIn(p: Pages, x: PageId, r: PageId, lcells: seq<Cell>, rcells: seq<Cell>,
                                      s: iset<Key>)
    requires PagesKeys(p, s) && x in p && r in p && p[x].LeafPage? && p[r].LeafPage?
      && lcells + rcells == p[x].cells + p[r].cells
    ensures forall i :: 0 <= i < |lcells| ==> lcells[i].key in s
    ensures forall i :: 0 <= i < |rcells| ==> rcells[i].key in s
  {
    assert PageKeys(p[x], s) && PageKeys(p[r], s);
    var c, d := p[x].cells + p[r].cells, lcells + rcells;
    forall i | 0 <= i < |c| ensures c[i].key in s {
      if i < |p[x].cells| { assert c[i] == p[x].cells[i]; } else { assert c[i] == p[r].cells[i - |p[x].cells|]; }
    }
    assert forall i :: 0 <= i < |lcells| ==> lcells[i] == d[i];
    assert forall i :: 0 <= i < |rcells| ==> rcells[i] == d[|lcells| + i];
  }

  /** The stores of borrowLeaf. */
  lemma {:induction false} LeavesBorrowed(p: Pages, q: Pages, n: Node, l: nat, lcells: seq<Cell>, rcells: seq<Cell>,
                                          h: nat, lo: Bound, hi: Bound,
                                          pre: seq<PageId>, post: seq<PageId>, s: iset<Key>)
    requires Held(p, [n], pre, post) && n.Inner? && KidsShape(n.keys, n.kids, h, lo, hi) && PagesKeys(p, s)
    requires l < |n.keys| && n.kids[l].Leaf? && n.kids[l+1].Leaf? && lcells != [] && rcells != []
    requires lcells + rcells == n.kids[l].cells + n.kids[l+1].cells
    requires var x, r := n.kids[l].id, n.kids[l+1].id;
      && x in p && r in p && p[x].LeafPage? && p[r].LeafPage? && p[x].cells == n.kids[l].cells
        && p[r].cells == n.kids[l+1].cells
      && q == p[x := LeafPage(p[x].left, p[x].right, lcells)][r := LeafPage(p[r].left, p[r].right, rcells)]
               [n.id := InternalPage(n.keys[l := rcells[0].key], IdsOf(n.kids))]
    ensures var n' := Inner(n.id, SpliceKeys(n, l, [rcells[0].key]),
      SpliceKids(n, l, [Leaf(n.kids[l].id, lcells), Leaf(n.kids[l+1].id, rcells)]));
      Rebalanced(p, q, n, n', h, lo, hi, pre, post) && PagesKeys(q, s) && Held(q, [n'], pre, post)
        && |n'.kids| == |n'.keys| + 1
  {
    hide Held, Swapped;
    var x, r, c, d := n.kids[l].id, n.kids[l+1].id, n.kids[l].cells, n.kids[l+1].cells;
    var ns := [Leaf(x, lcells), Leaf(r, rcells)];
    PairHeld(p, n, l, pre, post);
    var q1 := p[x := LeafPage(p[x].left, p[x].right, lcells)][r := LeafPage(p[r].left, p[r].right, rcells)];
    LeavesRewritten(p, q1, x, c, r, d, lcells, rcells, LeftOf(n, l, pre), RightOf(n, l, post));
    LeafPair(n, l, h, lo, hi);
    LeafWindow(x, lcells, r, rcells, LoAt(n.keys, lo, l), HiAt(n.keys, hi, l + 1));
    TwoLeaves(x, lcells, r, rcells);
    PairIds(n, l, rcells[0].key, ns);
    PairReplaced(p, q1, q, n, l, [rcells[0].key], ns, h, lo, hi, pre, post);
    MovedKeyIn(p, x, r, lcells, rcells, s);
    assert PageKeys(p[n.id], s);
    assert PageKeys(q[n.id], s) && PageKeys(q1[x], s) && PageKeys(q1[r], s);
  }

  /** The stores of borrowInternal. */
  lemma {:induction false} InnersBorrowed(p: Pages, q: Pages, n: Node, l: nat, m: nat, h: nat, lo: Bound, hi: Bound,
                                          pre: seq<PageId>, post: seq<PageId>, s: iset<Key>)
    requires Held(p, [n], pre, post) && n.Inner? && |n.kids| == |n.keys| + 1 && KidsShape(n.keys, n.kids, h, lo, hi)
      && PagesKeys(p, s)
    requires l < |n.keys| && n.kids[l].Inner? && n.kids[l+1].Inner? && m < |MergedInner(n, l).keys|
    requires |MergedInner(n, l).kids| == |MergedInner(n, l).keys| + 1
    requires var x, r, j := n.kids[l].id, n.kids[l+1].id, MergedInner(n, l);
      q == p[x := InternalPage(j.keys[..m], IdsOf(j.kids[..m+1]))][r :=
        InternalPage(j.keys[m+1..], IdsOf(j.kids[m+1..]))]
            [n.id := InternalPage(n.keys[l := j.keys[m]], IdsOf(n.kids))]
    ensures var n' := Inner(n.id, SpliceKeys(n, l, [MergedInner(n, l).keys[m]]), SpliceKids(n, l, Resplit(n, l, m)));
      Rebalanced(p, q, n, n', h, lo, hi, pre, post) && PagesKeys(q, s) && Held(q, [n'], pre, post)
        && |n'.kids| == |n'.keys| + 1
  {
    hide Held, Swapped, KidsShape, Reps, PagesKeys, Less;
    var a, b, j := n.kids[l], n.kids[l+1], MergedInner(n, l);
    var k, ns := j.keys[m], Resplit(n, l, m);
    PairHeld(p, n, l, pre, post);
    var q1 := p[a.id := InternalPage(j.keys[..m], IdsOf(j.kids[..m+1]))][b.id :=
      InternalPage(j.keys[m+1..], IdsOf(j.kids[m+1..]))];
    assert j.kids == j.kids[..m+1] + j.kids[m+1..];
    InnerShift(p, q1, a.id, a.keys, a.kids, b.id, b.keys, b.kids, j.keys[..m], j.kids[..m+1], j.keys[m+1..],
      j.kids[m+1..],
               LeftOf(n, l, pre), RightOf(n, l, post));
    InnerPair(n, l, h, lo, hi);
    InnerWindow(a.id, b.id, j.keys, j.kids, m, h, LoAt(n.keys, lo, l), HiAt(n.keys, hi, l + 1));
    TwoInners(a.id, j.keys[..m], j.kids[..m+1], b.id, j.keys[m+1..], j.kids[m+1..]);
    Append(a.kids, b.kids);
    PairIds(n, l, k, ns);
    PairReplaced(p, q1, q, n, l, [k], ns, h, lo, hi, pre, post);
    InnersKeys(p, q, n, l, m, s);
  }

  lemma {:induction false} InnersKeys(p: Pages, q: Pages, n: Node, l: nat, m: nat, s: iset<Key>)
    requires PagesKeys(p, s) && n.Inner? && l < |n.keys| && l + 1 < |n.kids| && n.kids[l].Inner? && n.kids[l+1].Inner?
    requires n.id in p && p[n.id] == InternalPage(n.keys, IdsOf(n.kids)) && Reps(p, n.kids[l]) && Reps(p, n.kids[l+1])
    requires m < |MergedInner(n, l).keys| && |MergedInner(n, l).kids| == |MergedInner(n, l).keys| + 1
    requires var x, r, j := n.kids[l].id, n.kids[l+1].id, MergedInner(n, l);
      q == p[x := InternalPage(j.keys[..m], IdsOf(j.kids[..m+1]))][r :=
        InternalPage(j.keys[m+1..], IdsOf(j.kids[m+1..]))]
            [n.id := InternalPage(n.keys[l := j.keys[m]], IdsOf(n.kids))]
    ensures PagesKeys(q, s)
  {
    JoinedKeys(p, n, l, s);
    hide Reps, PagesKeys, MergedInner;
    ThreeRewritten(p, q, n.id, n.kids[l].id, n.kids[l+1].id, s);
  }

  lemma {:induction false} ThreeRewritten(p: Pages, q: Pages, x: PageId, y: PageId, z: PageId, s: iset<Key>)
    requires PagesKeys(p, s)
    requires forall i :: i in q && i != x && i != y && i != z ==> i in p && q[i] == p[i]
    requires (x in q ==> PageKeys(q[x], s)) && (y in q ==> PageKeys(q[y], s)) && (z in q ==> PageKeys(q[z], s))
    ensures PagesKeys(q, s)
  {}

  lemma {:induction false} JoinedKeys(p: Pages, n: Node, l: nat, s: iset<Key>)
    requires PagesKeys(p, s) && n.Inner? && l < |n.keys| && l + 1 < |n.kids| && n.kids[l].Inner? && n.kids[l+1].Inner?
    requires n.id in p && p[n.id] == InternalPage(n.keys, IdsOf(n.kids)) && Reps(p, n.kids[l]) && Reps(p, n.kids[l+1])
    ensures forall i :: 0 <= i < |MergedInner(n, l).keys| ==> MergedInner(n, l).keys[i] in s
    ensures forall i :: 0 <= i < |n.keys| ==> n.keys[i] in s
  {
    var a, b, j := n.kids[l].keys, n.kids[l+1].keys, MergedInner(n, l).keys;
    assert PageKeys(p[n.id], s) && PageKeys(p[n.kids[l].id], s) && PageKeys(p[n.kids[l+1].id], s);
    forall i | 0 <= i < |j| ensures j[i] in s {
      if i < |a| { assert j[i] == a[i]; } else if i > |a| { assert j[i] == b[i - |a| - 1]; }
    }
  }

  /** The stores of mergeInternal. */
  lemma {:induction false} InnersMerged(p: Pages, q: Pages, n: Node, l: nat, h: nat, lo: Bound, hi: Bound,
                                        pre: seq<PageId>, post: seq<PageId>, s: iset<Key>)
    requires Held(p, [n], pre, post) && n.Inner? && |n.kids| == |n.keys| + 1 && KidsShape(n.keys, n.kids, h, lo, hi)
      && PagesKeys(p, s)
    requires l < |n.keys| && n.kids[l].Inner? && n.kids[l+1].Inner?
    requires var x, r, j := n.kids[l].id, n.kids[l+1].id, MergedInner(n, l);
      q == p[x := InternalPage(j.keys, IdsOf(n.kids[l].kids) + IdsOf(n.kids[l+1].kids))]
            [n.id := InternalPage(n.keys[..l] + n.keys[l+1..], IdsOf(n.kids)[..l+1] + IdsOf(n.kids)[l+2..])] - {r}
    ensures var n' := Inner(n.id, SpliceKeys(n, l, []), SpliceKids(n, l, [MergedInner(n, l)]));
      Rebalanced(p, q, n, n', h, lo, hi, pre, post) && PagesKeys(q, s)
  {
    hide Held, Swapped, KidsShape, Reps, PagesKeys;
    var a, b, j := n.kids[l], n.kids[l+1], MergedInner(n, l);
    PairHeld(p, n, l, pre, post);
    assert IdsOf(a.kids) + IdsOf(b.kids) == IdsOf(j.kids);
    var q1 := p[a.id := InternalPage(j.keys, IdsOf(j.kids))] - {b.id};
    InnerMerge(p, q1, a.id, a.keys, a.kids, b.id, b.keys, b.kids, j.keys, LeftOf(n, l, pre), RightOf(n, l, post));
    MergedWindow(n, l, h, lo, hi);
    MergedIds(n, l, j);
    assert SameBut(q1, q, n.id) by { assert n.id != b.id; }
    PairReplaced(p, q1, q, n, l, [], [j], h, lo, hi, pre, post);
    InnersMergedKeys(p, q, n, l, s);
  }

  lemma {:induction false} MergedWindow(n: Node, l: nat, h: nat, lo: Bound, hi: Bound)
    requires n.Inner? && KidsShape(n.keys, n.kids, h, lo, hi) && l < |n.keys| && n.kids[l].Inner? && n.kids[l+1].Inner?
    ensures KidsShape([], [MergedInner(n, l)], h, LoAt(n.keys, lo, l), HiAt(n.keys, hi, l + 1))
    ensures FlatAll([MergedInner(n, l)]) == Flat(n.kids[l]) + Flat(n.kids[l+1])
  {
    var j := MergedInner(n, l);
    InnerPair(n, l, h, lo, hi);
    KidsOne(j, h, LoAt(n.keys, lo, l), HiAt(n.keys, hi, l + 1));
    OneInner(j.id, j.keys, j.kids);
    Append(n.kids[l].kids, n.kids[l+1].kids);
  }

  lemma {:induction false} InnersMergedKeys(p: Pages, q: Pages, n: Node, l: nat, s: iset<Key>)
    requires PagesKeys(p, s) && n.Inner? && l < |n.keys| && l + 1 < |n.kids| && n.kids[l].Inner? && n.kids[l+1].Inner?
    requires n.id in p && p[n.id] == InternalPage(n.keys, IdsOf(n.kids)) && Reps(p, n.kids[l]) && Reps(p, n.kids[l+1])
    requires n.id in q && q[n.id].InternalPage? && q[n.id].keys == n.keys[..l] + n.keys[l+1..]
    requires n.kids[l].id in q && q[n.kids[l].id].InternalPage? && q[n.kids[l].id].keys == MergedInner(n, l).keys
    requires forall i :: i in q && i != n.id && i != n.kids[l].id ==> i in p && q[i] == p[i]
    ensures PagesKeys(q, s)
  {
    JoinedKeys(p, n, l, s);
    ThreeRewritten(p, q, n.id, n.kids[l].id, n.kids[l].id, s);
  }

  /** A leaf's right link names the first leaf after it, or nothing. */
  lemma {:induction false} SiblingOf(p: Pages, id: PageId, c: seq<Cell>, pre: seq<PageId>, post: seq<PageId>)
    requires Held(p, [Leaf(id, c)], pre, post)
    ensures id in p && p[id].LeafPage? && p[id].right == First(post, 0) && p[id].cells == c
    ensures post != [] ==> post[0] in p && p[post[0]].LeafPage? && post[0] != id
  {
    HeldLeaf(p, id, c, pre, post);
    LinksAt(p, pre, id, post);
  }

  lemma {:induction false} RootLeaf(q: Pages, id: PageId, c: Cell)
    requires id in q && q[id] == LeafPage(0, 0, [c])
    ensures Held(q, [Leaf(id, [c])], [], []) && MapOf([c]) == map[c.key := c.val]
  {
    One(Leaf(id, [c]));
    assert [] + [id] + [] == [id];
    assert [id][1..] == [] && [c][1..] == [];
    assert Chain(q, id, [], 0);
    assert [Leaf(id, [c])][0] == Leaf(id, [c]);
  }

  /** The whole tree absorbed the new key. */
  lemma {:induction false} RootPut(p: Pages, q: Pages, t: Node, ns: seq<Node>, h: nat, key: Key, val: seq<Byte>)
    requires Shape(t, h, Open, Open) && FlatAll(ns) == SeqPut(Flat(t), key, val) && Swapped(p, q, [t], ns, [], [])
    ensures MapOf(FlatAll(ns)) == MapOf(Flat(t))[key := val]
    ensures KeptOutside(p, Ids(t), q, IdsAll(ns))
  {
    One(t);
    FlatOrdered(t, h, Open, Open);
    MapPut(Flat(t), key, val);
  }

  lemma {:induction false} OneRoot(ks: seq<Key>, ns: seq<Node>, h: nat)
    requires |ns| == 1 && KidsShape(ks, ns, h, Open, Open)
    ensures ns == [ns[0]] && Shape(ns[0], h, Open, Open) && FlatAll(ns) == Flat(ns[0]) && IdsAll(ns) == Ids(ns[0])
  {
    assert ns == [ns[0]] && ks == [];
    One(ns[0]);
    KidsOne(ns[0], h, Open, Open);
  }

  lemma {:induction false} RootGrown(p: Pages, q: Pages, id: PageId, sep: Key, ns: seq<Node>)
    requires Held(p, ns, [], []) && id !in p && q == p[id := InternalPage([sep], IdsOf(ns))]
    ensures Held(q, [Inner(id, [sep], ns)], [], [])
  {
    var t := Inner(id, [sep], ns);
    OneInner(id, [sep], ns);
    RepsAllIds(p, ns);
    RepsAllFrame(p, q, ns);
    assert [t][0] == t && Reps(q, t);
    NoDupPair(id, id, IdsAll(ns));
    var ls := [] + LeafIdsAll(ns) + [];
    LinkedLeaves(p, 0, ls, 0);
    ChainFrame(p, q, 0, ls, 0);
  }

  lemma {:induction false} OneLeaf(id: PageId, cells: seq<Cell>, lo: Bound, hi: Bound)
    requires Sorted(cells) && CellsIn(cells, lo, hi)
    ensures KidsShape([], [Leaf(id, cells)], 0, lo, hi) && FlatAll([Leaf(id, cells)]) == cells
  {
    One(Leaf(id, cells));
    KidsOne(Leaf(id, cells), 0, lo, hi);
  }
}
