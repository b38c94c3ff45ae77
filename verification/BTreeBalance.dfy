/** Rebalancing: what merging, borrowing and refreshing a separator do to a parent page. */
module BTreeBalance {
  import opened Bytes
  import opened BTreeShape
  import opened BTreeSize
  import opened BTreePages

  // ---- flat facts about stored pages --------------------------------------

  predicate PageFits(ps: PageSize, p: Page) {
    match p
    case LeafPage(_, _, cells) => LeafFits(ps, cells)
    case InternalPage(keys, _) => InternalFits(ps, keys)
  }

  ghost predicate PageKeys(p: Page, s: iset<Key>) {
    match p
    case LeafPage(_, _, cells) => forall i :: 0 <= i < |cells| ==> cells[i].key in s
    case InternalPage(keys, _) => forall i :: 0 <= i < |keys| ==> keys[i] in s
  }

  predicate PagesFit(ps: PageSize, p: Pages) { forall x :: x in p ==> PageFits(ps, p[x]) }

  /** Every key and separator on the pages comes from s. */
  ghost predicate PagesKeys(p: Pages, s: iset<Key>) { forall x :: x in p ==> PageKeys(p[x], s) }

  // ---- a parent page and its children -------------------------------------

  /** From pages p to q, parent n became n' and stands for the same cells. */
  ghost predicate Rebalanced(p: Pages, q: Pages, n: Node, n': Node, h: nat, lo: Bound, hi: Bound, pre: seq<PageId>,
                             post: seq<PageId>) {
    && Replaced(p, q, [n], [n'], pre, post)
    && n.Inner? && n'.Inner? && n'.id == n.id
    && KidsShape(n'.keys, n'.kids, h, lo, hi)
    && FlatAll(n'.kids) == FlatAll(n.kids)
  }

  lemma {:induction false} RebalancedSelf(p: Pages, n: Node, h: nat, lo: Bound, hi: Bound, pre: seq<PageId>,
                                          post: seq<PageId>)
    requires Held(p, [n], pre, post) && n.Inner? && KidsShape(n.keys, n.kids, h, lo, hi)
    ensures Rebalanced(p, p, n, n, h, lo, hi, pre, post)
  {
    ReplacedSelf(p, [n], pre, post);
  }

  lemma {:induction false} RebalancedTransitive(p: Pages, q: Pages, r: Pages, a: Node, b: Node, c: Node, h: nat,
                                                lo: Bound, hi: Bound, pre: seq<PageId>, post: seq<PageId>)
    requires Rebalanced(p, q, a, b, h, lo, hi, pre, post) && Rebalanced(q, r, b, c, h, lo, hi, pre, post)
    ensures Rebalanced(p, r, a, c, h, lo, hi, pre, post)
  {
    ReplacedTransitive(p, q, r, [a], [b], [c], pre, post);
  }

  ghost function LeftOf(n: Node, l: nat, pre: seq<PageId>): seq<PageId>
    requires n.Inner? && l <= |n.kids|
  { pre + LeafIdsAll(n.kids[..l]) }

  ghost function RightOf(n: Node, l: nat, post: seq<PageId>): seq<PageId>
    requires n.Inner? && l + 2 <= |n.kids|
  { LeafIdsAll(n.kids[l+2..]) + post }

  /** The children l and l + 1 of a held parent. */
  lemma {:induction false} PairHeld(p: Pages, n: Node, l: nat, pre: seq<PageId>, post: seq<PageId>)
    requires Held(p, [n], pre, post) && n.Inner? && l + 1 < |n.kids|
    ensures Held(p, [n.kids[l], n.kids[l+1]], LeftOf(n, l, pre), RightOf(n, l, post))
    ensures n.id in p && p[n.id] == InternalPage(n.keys, IdsOf(n.kids))
    ensures n.id !in Ids(n.kids[l]) && n.id !in Ids(n.kids[l+1]) && n.kids[l].id != n.kids[l+1].id
    ensures Reps(p, n.kids[l]) && Reps(p, n.kids[l+1])
    ensures n.id !in LeftOf(n, l, pre) && n.id !in RightOf(n, l, post)
  {
    var a, b, c := n.kids[..l], [n.kids[l], n.kids[l+1]], n.kids[l+2..];
    assert n.kids == a + b + c;
    HeldParts(p, n, a, b, c, pre, post);
    assert Reps(p, [n][0]);
    assert b == [n.kids[l]] + [n.kids[l+1]];
    Append([n.kids[l]], [n.kids[l+1]]);
    One(n.kids[l]);
    One(n.kids[l+1]);
    NoDupSum(Ids(n.kids[l]), Ids(n.kids[l+1]));
    LeafIdsAllOwned(a);
    LeafIdsAllOwned(c);
  }

  ghost function SpliceKeys(n: Node, l: nat, cks: seq<Key>): seq<Key>
    requires n.Inner? && l < |n.keys|
  { n.keys[..l] + cks + n.keys[l+1..] }

  ghost function SpliceKids(n: Node, l: nat, cns: seq<Node>): seq<Node>
    requires n.Inner? && l + 1 < |n.kids|
  { n.kids[..l] + cns + n.kids[l+2..] }

  /** Children l and l + 1 were replaced by cns and the parent page rewritten. */
  lemma {:induction false} PairReplaced(p: Pages, q: Pages, r: Pages, n: Node, l: nat, cks: seq<Key>, cns: seq<Node>,
                                        h: nat, lo: Bound, hi: Bound, pre: seq<PageId>, post: seq<PageId>)
    requires Held(p, [n], pre, post) && n.Inner? && KidsShape(n.keys, n.kids, h, lo, hi) && l < |n.keys|
    requires Replaced(p, q, [n.kids[l], n.kids[l+1]], cns, LeftOf(n, l, pre), RightOf(n, l, post))
    requires KidsShape(cks, cns, h, LoAt(n.keys, lo, l), HiAt(n.keys, hi, l + 1))
    requires FlatAll(cns) == Flat(n.kids[l]) + Flat(n.kids[l+1])
    requires SameBut(q, r, n.id) && r[n.id] == InternalPage(SpliceKeys(n, l, cks), IdsOf(SpliceKids(n, l, cns)))
    ensures Rebalanced(p, r, n, Inner(n.id, SpliceKeys(n, l, cks), SpliceKids(n, l, cns)), h, lo, hi, pre, post)
  {
    hide Held, Swapped;
    var a, b, c := n.kids[..l], [n.kids[l], n.kids[l+1]], n.kids[l+2..];
    assert n.kids == a + b + c;
    ReplaceParts(p, q, r, n, a, b, c, cns, SpliceKeys(n, l, cks), pre, post);
    WindowShape(n.keys, n.kids, l, l + 2, cks, cns, h, lo, hi);
    Spliced(a, b, c);
    Spliced(a, cns, c);
    assert b == [n.kids[l]] + [n.kids[l+1]];
    Append([n.kids[l]], [n.kids[l+1]]);
    One(n.kids[l]);
    One(n.kids[l+1]);
  }

  // ---- leaves -------------------------------------------------------------

  /** The two leaves of a pair, in order around their separator. */
  lemma {:induction false} LeafPair(n: Node, l: nat, h: nat, lo: Bound, hi: Bound)
    requires n.Inner? && KidsShape(n.keys, n.kids, h, lo, hi) && l < |n.keys| && n.kids[l].Leaf? && n.kids[l+1].Leaf?
    ensures h == 0
    ensures var all := n.kids[l].cells + n.kids[l+1].cells;
      Sorted(all) && CellsIn(all, LoAt(n.keys, lo, l), HiAt(n.keys, hi, l + 1))
  {
    Laws();
    assert Shape(n.kids[l], h, LoAt(n.keys, lo, l), HiAt(n.keys, hi, l));
    assert Shape(n.kids[l+1], h, LoAt(n.keys, lo, l + 1), HiAt(n.keys, hi, l + 1));
    assert Inside(n.keys[l], lo, hi);
    assert l > 0 ==> Less(n.keys[l-1], n.keys[l]);
    assert l + 1 < |n.keys| ==> Less(n.keys[l], n.keys[l+1]);
  }

  /** Cells split in two at any point, around the first right key. */
  lemma {:induction false} LeafWindow(x: PageId, c: seq<Cell>, r: PageId, d: seq<Cell>, lo: Bound, hi: Bound)
    requires Sorted(c + d) && CellsIn(c + d, lo, hi) && c != [] && d != []
    ensures KidsShape([d[0].key], [Leaf(x, c), Leaf(r, d)], 0, lo, hi)
  {
    Laws();
    var e, s := c + d, d[0].key;
    assert forall i :: 0 <= i < |c| ==> e[i] == c[i];
    assert forall i :: 0 <= i < |d| ==> e[|c| + i] == d[i];
    assert Shape(Leaf(x, c), 0, lo, At(s)) && Shape(Leaf(r, d), 0, At(s), hi);
    KidsOne(Leaf(x, c), 0, lo, At(s));
    KidsOne(Leaf(r, d), 0, At(s), hi);
    assert Inside(s, lo, hi) by { assert Less(e[0].key, e[|c|].key); }
    Join([], [Leaf(x, c)], s, [], [Leaf(r, d)], 0, lo, hi);
    assert [] + [s] + [] == [s] && [Leaf(x, c)] + [Leaf(r, d)] == [Leaf(x, c), Leaf(r, d)];
  }

  // ---- internal pages -----------------------------------------------------

  /** Two internal siblings and the separator between them, as one run of children. */
  lemma {:induction false} InnerPair(n: Node, l: nat, h: nat, lo: Bound, hi: Bound)
    requires n.Inner? && KidsShape(n.keys, n.kids, h, lo, hi) && l < |n.keys| && n.kids[l].Inner? && n.kids[l+1].Inner?
    ensures h > 0
    ensures KidsShape(n.kids[l].keys + [n.keys[l]] + n.kids[l+1].keys, n.kids[l].kids + n.kids[l+1].kids, h - 1,
                      LoAt(n.keys, lo, l), HiAt(n.keys, hi, l + 1))
    ensures AllFull(n.kids[l].kids + n.kids[l+1].kids)
  {
    Laws();
    var a, b, s := n.kids[l], n.kids[l+1], n.keys[l];
    assert Shape(a, h, LoAt(n.keys, lo, l), HiAt(n.keys, hi, l));
    assert Shape(b, h, LoAt(n.keys, lo, l + 1), HiAt(n.keys, hi, l + 1));
    assert Inside(s, lo, hi);
    assert l > 0 ==> Less(n.keys[l-1], n.keys[l]);
    assert l + 1 < |n.keys| ==> Less(n.keys[l], n.keys[l+1]);
    Join(a.keys, a.kids, s, b.keys, b.kids, h - 1, LoAt(n.keys, lo, l), HiAt(n.keys, hi, l + 1));
    forall i | 0 <= i < |a.kids + b.kids| ensures Full((a.kids + b.kids)[i]) {
      if i < |a.kids| { assert (a.kids + b.kids)[i] == a.kids[i]; } else {
        assert (a.kids + b.kids)[i] == b.kids[i - |a.kids|];
      }
    }
  }

  ghost function MergedInner(n: Node, l: nat): Node
    requires n.Inner? && l < |n.keys| && l + 1 < |n.kids| && n.kids[l].Inner? && n.kids[l+1].Inner?
  {
    var a, b := n.kids[l], n.kids[l+1];
    Inner(a.id, a.keys + [n.keys[l]] + b.keys, a.kids + b.kids)
  }

  /** The siblings l and l + 1 with separator m of their joined run between them. */
  ghost function Resplit(n: Node, l: nat, m: nat): seq<Node>
    requires n.Inner? && l < |n.keys| && l + 1 < |n.kids| && n.kids[l].Inner? && n.kids[l+1].Inner?
    requires m < |MergedInner(n, l).keys| && m < |MergedInner(n, l).kids|
  {
    var j := MergedInner(n, l);
    [Inner(n.kids[l].id, j.keys[..m], j.kids[..m+1]), Inner(n.kids[l+1].id, j.keys[m+1..], j.kids[m+1..])]
  }

  /** A run of children split in two at separator m. */
  lemma {:induction false} InnerWindow(x: PageId, r: PageId, keys: seq<Key>, kids: seq<Node>, m: nat, h: nat,
                                       lo: Bound, hi: Bound)
    requires h > 0 && KidsShape(keys, kids, h - 1, lo, hi) && AllFull(kids) && m < |keys|
    ensures KidsShape([keys[m]], [Inner(x, keys[..m], kids[..m+1]), Inner(r, keys[m+1..], kids[m+1..])], h, lo, hi)
  {
    var a, b, s := Inner(x, keys[..m], kids[..m+1]), Inner(r, keys[m+1..], kids[m+1..]), keys[m];
    Cut(keys, kids, m, h - 1, lo, hi);
    assert AllFull(kids[..m+1]) && AllFull(kids[m+1..]);
    KidsOne(a, h, lo, At(s));
    KidsOne(b, h, At(s), hi);
    Join([], [a], s, [], [b], h, lo, hi);
    assert [] + [s] + [] == [s] && [a] + [b] == [a, b];
  }

  // ---- separators ---------------------------------------------------------

  /** Raising a separator to the smallest key to its right. */
  lemma {:induction false} SeparatorRaised(n: Node, c: nat, s: Key, h: nat, lo: Bound, hi: Bound)
    requires n.Inner? && KidsShape(n.keys, n.kids, h, lo, hi) && 0 < c <= |n.keys|
    requires Full(n.kids[c]) && Flat(n.kids[c]) != [] && Flat(n.kids[c])[0].key == s
    ensures KidsShape([s], [n.kids[c-1], n.kids[c]], h, LoAt(n.keys, lo, c - 1), HiAt(n.keys, hi, c))
  {
    Laws();
    var l, r, k := n.kids[c-1], n.kids[c], n.keys[c-1];
    assert Shape(l, h, LoAt(n.keys, lo, c - 1), HiAt(n.keys, hi, c - 1));
    assert Shape(r, h, LoAt(n.keys, lo, c), HiAt(n.keys, hi, c));
    FlatOrdered(r, h, LoAt(n.keys, lo, c), HiAt(n.keys, hi, c));
    assert InRange(Flat(r)[0].key, LoAt(n.keys, lo, c), HiAt(n.keys, hi, c));
    WeakenHi(l, h, LoAt(n.keys, lo, c - 1), k, s);
    TightenLo(r, h, LoAt(n.keys, lo, c), HiAt(n.keys, hi, c), s);
    assert Inside(k, lo, hi);
    assert c > 1 ==> Less(n.keys[c-2], k);
    KidsOne(l, h, LoAt(n.keys, lo, c - 1), At(s));
    KidsOne(r, h, At(s), HiAt(n.keys, hi, c));
    Join([], [l], s, [], [r], h, LoAt(n.keys, lo, c - 1), HiAt(n.keys, hi, c));
    assert [] + [s] + [] == [s] && [l] + [r] == [l, r];
  }
}
