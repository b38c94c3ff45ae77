/**
 * Replacing a run of sibling subtrees in the page store.
 *
 * Every update of the tree swaps one run of siblings for another. `Held` says
 * that the pages hold a run whose leaves are threaded between the leaves `pre`
 * and `post`; `Swapped` says that nothing but that run and the links of its
 * neighbours changed.
 */
module BTreePages {
  import opened Bytes
  import opened BTreeShape

  type Pages = map<PageId, Page>

  ghost predicate Held(p: Pages, ns: seq<Node>, pre: seq<PageId>, post: seq<PageId>) {
    && RepsAll(p, ns)
    && NoDup(IdsAll(ns))
    && Linked(p, pre + LeafIdsAll(ns) + post)
    && (forall x :: x in pre || x in post ==> x !in IdsAll(ns))
  }

  /** Pages outside the run keep their bodies, and outside the neighbouring
      leaves they are untouched. New pages are fresh and dropped pages are free. */
  ghost predicate Swapped(p: Pages, q: Pages, olds: seq<Node>, ns: seq<Node>, pre: seq<PageId>, post: seq<PageId>) {
    && (forall x :: x in p && x !in IdsAll(olds) ==>
      x in q && SameBody(p[x], q[x]) && (x in pre || x in post || p[x] == q[x]))
    && (forall x :: x in IdsAll(ns) ==> x in IdsAll(olds) || x !in p)
    && (forall x :: x in q ==> x in IdsAll(ns) || (x in p && x !in IdsAll(olds)))
  }

  ghost predicate Replaced(p: Pages, q: Pages, olds: seq<Node>, ns: seq<Node>, pre: seq<PageId>, post: seq<PageId>) {
    Held(q, ns, pre, post) && Swapped(p, q, olds, ns, pre, post)
  }

  lemma {:induction false} ReplacedTransitive(p: Pages, q: Pages, r: Pages, a: seq<Node>, b: seq<Node>,
                                              c: seq<Node>, pre: seq<PageId>, post: seq<PageId>)
    requires Replaced(p, q, a, b, pre, post) && Replaced(q, r, b, c, pre, post)
    ensures Replaced(p, r, a, c, pre, post)
  {}

  lemma {:induction false} ReplacedSelf(p: Pages, a: seq<Node>, pre: seq<PageId>, post: seq<PageId>)
    requires Held(p, a, pre, post)
    ensures Replaced(p, p, a, a, pre, post)
  {
    RepsAllIds(p, a);
  }

  lemma {:induction false} Spliced(a: seq<Node>, b: seq<Node>, c: seq<Node>)
    ensures IdsAll(a + b + c) == IdsAll(a) + IdsAll(b) + IdsAll(c)
    ensures FlatAll(a + b + c) == FlatAll(a) + FlatAll(b) + FlatAll(c)
    ensures LeafIdsAll(a + b + c) == LeafIdsAll(a) + LeafIdsAll(b) + LeafIdsAll(c)
  {
    Append(a + b, c);
    Append(a, b);
  }

  /** Replacing the children kids[i..j] inside their separators. */
  lemma {:induction false} WindowShape(keys: seq<Key>, kids: seq<Node>, i: nat, j: nat, cks: seq<Key>,
                                       cns: seq<Node>, h: nat, lo: Bound, hi: Bound)
    requires KidsShape(keys, kids, h, lo, hi) && i < j <= |kids|
    requires KidsShape(cks, cns, h, LoAt(keys, lo, i), HiAt(keys, hi, j - 1))
    ensures KidsShape(keys[..i] + cks + keys[j-1..], kids[..i] + cns + kids[j..], h, lo, hi)
  {
    assert |kids| == |keys| + 1;
    hide KidsShape;
    WindowLeft(keys, kids, i, j, cks, cns, h, lo, hi);
    WindowRight(keys, kids, j, keys[..i] + cks, kids[..i] + cns, h, lo, hi);
  }

  /** The children before a window. */
  lemma {:induction false} WindowLeft(keys: seq<Key>, kids: seq<Node>, i: nat, j: nat, cks: seq<Key>,
                                      cns: seq<Node>, h: nat, lo: Bound, hi: Bound)
    requires KidsShape(keys, kids, h, lo, hi) && i < j <= |kids|
    requires KidsShape(cks, cns, h, LoAt(keys, lo, i), HiAt(keys, hi, j - 1))
    ensures KidsShape(keys[..i] + cks, kids[..i] + cns, h, lo, HiAt(keys, hi, j - 1))
  {
    if i > 0 {
      assert Inside(keys[i-1], lo, HiAt(keys, hi, j - 1)) by { Laws(); }
      Cut(keys, kids, i - 1, h, lo, hi);
      hide KidsShape;
      Join(keys[..i-1], kids[..i], keys[i-1], cks, cns, h, lo, HiAt(keys, hi, j - 1));
      assert keys[..i-1] + [keys[i-1]] == keys[..i];
    } else {
      assert keys[..i] + cks == cks && kids[..i] + cns == cns;
    }
  }

  /** The children after a window that starts at the first child. */
  lemma {:induction false} WindowRight(keys: seq<Key>, kids: seq<Node>, j: nat, ks: seq<Key>, ns: seq<Node>, h: nat,
                                       lo: Bound, hi: Bound)
    requires KidsShape(keys, kids, h, lo, hi) && 0 < j <= |kids| && |kids| == |keys| + 1
      && KidsShape(ks, ns, h, lo, HiAt(keys, hi, j - 1))
    ensures KidsShape(ks + keys[j-1..], ns + kids[j..], h, lo, hi)
  {
    if j - 1 < |keys| {
      assert Inside(keys[j-1], lo, hi);
      Cut(keys, kids, j - 1, h, lo, hi);
      hide KidsShape;
      Join(ks, ns, keys[j-1], keys[j..], kids[j..], h, lo, hi);
      assert ks + [keys[j-1]] + keys[j..] == ks + keys[j-1..];
    } else {
      assert ks + keys[j-1..] == ks && ns + kids[j..] == ns;
    }
  }

  ghost predicate Apart(a: multiset<PageId>, b: multiset<PageId>) { forall x :: x in a ==> x !in b }

  lemma {:induction false} NoDupSum(a: multiset<PageId>, b: multiset<PageId>)
    ensures NoDup(a + b) <==> NoDup(a) && NoDup(b) && Apart(a, b)
  {
    if NoDup(a + b) {
      forall x | x in a ensures a[x] == 1 && x !in b { assert (a + b)[x] == 1; }
      forall x | x in b ensures b[x] == 1 { assert (a + b)[x] == 1; }
    }
  }

  /** The ids of an internal page and of three runs of its children. */
  lemma {:induction false} NoDupParts(id: PageId, a: multiset<PageId>, b: multiset<PageId>, c: multiset<PageId>)
    ensures NoDup(multiset{id} + (a + b + c)) <==>
      && NoDup(a) && NoDup(b) && NoDup(c) && Apart(a, b) && Apart(a, c) && Apart(b, c)
      && id !in a && id !in b && id !in c
  {
    NoDupSum(multiset{id}, a + b + c);
    NoDupSum(a + b, c);
    NoDupSum(a, b);
    assert NoDup(multiset{id});
    assert id in multiset{id};
    if id !in a && id !in b && id !in c { assert Apart(multiset{id}, a + b + c); }
    if Apart(a, c) && Apart(b, c) { assert Apart(a + b, c); }
    if Apart(a + b, c) {
      forall x | x in a ensures x !in c { assert x in a + b; }
      forall x | x in b ensures x !in c { assert x in a + b; }
    }
  }

  /** What a held internal page says about a run b of its children. */
  lemma {:induction false} HeldParts(p: Pages, t: Node, a: seq<Node>, b: seq<Node>, c: seq<Node>, pre: seq<PageId>,
                                     post: seq<PageId>)
    requires Held(p, [t], pre, post) && t.Inner? && t.kids == a + b + c
    ensures Held(p, b, pre + LeafIdsAll(a), LeafIdsAll(c) + post)
    ensures RepsAll(p, a) && RepsAll(p, c)
    ensures Apart(IdsAll(a), IdsAll(b)) && Apart(IdsAll(a), IdsAll(c)) && Apart(IdsAll(b), IdsAll(c))
    ensures NoDup(IdsAll(a)) && NoDup(IdsAll(c))
    ensures t.id !in IdsAll(a) && t.id !in IdsAll(b) && t.id !in IdsAll(c) && t.id !in pre && t.id !in post
  {
    assert [t][0] == t;
    RepsParts(p, t, a, b, c);
    PartsIds(t, a, b, c);
    LeafIdsAllOwned(a);
    LeafIdsAllOwned(c);
    LeavesRegroup(pre, a, b, c, post);
    One(t);
  }

  lemma {:induction false} RepsParts(p: Pages, t: Node, a: seq<Node>, b: seq<Node>, c: seq<Node>)
    requires t.Inner? && t.kids == a + b + c && Reps(p, t)
    ensures RepsAll(p, a) && RepsAll(p, b) && RepsAll(p, c)
  {
    var kids := a + b + c;
    forall i | 0 <= i < |a| ensures Reps(p, a[i]) { assert kids[i] == a[i]; }
    forall i | 0 <= i < |b| ensures Reps(p, b[i]) { assert kids[|a| + i] == b[i]; }
    forall i | 0 <= i < |c| ensures Reps(p, c[i]) { assert kids[|a| + |b| + i] == c[i]; }
  }

  lemma {:induction false} PartsIds(t: Node, a: seq<Node>, b: seq<Node>, c: seq<Node>)
    requires t.Inner? && t.kids == a + b + c
    ensures Ids(t) == IdsAll([t]) == multiset{t.id} + (IdsAll(a) + IdsAll(b) + IdsAll(c))
    ensures NoDup(IdsAll([t])) <==>
      && NoDup(IdsAll(a)) && NoDup(IdsAll(b)) && NoDup(IdsAll(c))
      && Apart(IdsAll(a), IdsAll(b)) && Apart(IdsAll(a), IdsAll(c)) && Apart(IdsAll(b), IdsAll(c))
      && t.id !in IdsAll(a) && t.id !in IdsAll(b) && t.id !in IdsAll(c)
  {
    One(t);
    Spliced(a, b, c);
    NoDupParts(t.id, IdsAll(a), IdsAll(b), IdsAll(c));
  }

  lemma {:induction false} LeavesRegroup(pre: seq<PageId>, a: seq<Node>, b: seq<Node>, c: seq<Node>, post: seq<PageId>)
    ensures pre + LeafIdsAll(a + b + c) + post == (pre + LeafIdsAll(a)) + LeafIdsAll(b) + (LeafIdsAll(c) + post)
  {
    Spliced(a, b, c);
    Regroup(pre, LeafIdsAll(a), LeafIdsAll(b), LeafIdsAll(c), post);
  }

  lemma {:induction false} Regroup(u: seq<PageId>, v: seq<PageId>, w: seq<PageId>, x: seq<PageId>, y: seq<PageId>)
    ensures u + (v + w + x) + y == (u + v) + w + (x + y)
  {}

  /** r rewrites page id of q and nothing else. */
  ghost predicate SameBut(q: Pages, r: Pages, id: PageId) {
    id in r && forall x :: x != id ==> (x in q <==> x in r) && (x in q ==> q[x] == r[x])
  }

  /** Once a run b of children was replaced by d and the parent page rewritten,
      the parent was replaced. */
  lemma {:induction false} ReplaceParts(p: Pages, q: Pages, r: Pages, t: Node, a: seq<Node>, b: seq<Node>,
                                        c: seq<Node>, d: seq<Node>, keys: seq<Key>, pre: seq<PageId>,
                                        post: seq<PageId>)
    requires Held(p, [t], pre, post) && t.Inner? && t.kids == a + b + c
    requires Replaced(p, q, b, d, pre + LeafIdsAll(a), LeafIdsAll(c) + post)
    requires SameBut(q, r, t.id) && r[t.id] == InternalPage(keys, IdsOf(a + d + c))
    ensures Replaced(p, r, [t], [Inner(t.id, keys, a + d + c)], pre, post)
  {
    var id, t' := t.id, Inner(t.id, keys, a + d + c);
    HeldParts(p, t, a, b, c, pre, post);
    HeldAround(p, q, r, id, a, b, c, d, pre + LeafIdsAll(a), LeafIdsAll(c) + post);
    HeldInner(q, r, t', a, c, d, pre, post) by { OutsideStays(q, a, b, c, d, t, pre, post); }
    SwappedInner(p, q, r, t, t', a, b, c, d, pre, post);
  }

  lemma {:induction false} HeldInner(q: Pages, r: Pages, t: Node, a: seq<Node>, c: seq<Node>, d: seq<Node>,
                                     pre: seq<PageId>, post: seq<PageId>)
    requires t.Inner? && t.kids == a + d + c && Held(q, d, pre + LeafIdsAll(a), LeafIdsAll(c) + post)
    requires RepsAll(r, a) && RepsAll(r, c) && RepsAll(r, d)
    requires NoDup(IdsAll(a)) && NoDup(IdsAll(c)) && Apart(IdsAll(a), IdsAll(d)) && Apart(IdsAll(a), IdsAll(c))
      && Apart(IdsAll(d), IdsAll(c))
    requires t.id !in IdsAll(a) && t.id !in IdsAll(d) && t.id !in IdsAll(c) && t.id !in pre && t.id !in post
    requires SameBut(q, r, t.id) && r[t.id] == InternalPage(t.keys, IdsOf(t.kids))
    requires forall x :: x in pre || x in post ==> x !in multiset{t.id} + (IdsAll(a) + IdsAll(d) + IdsAll(c))
    ensures Held(r, [t], pre, post)
  {
    RepsInner(r, t, a, d, c);
    PartsIds(t, a, d, c);
    LeavesRegroup(pre, a, d, c, post);
    var ls := (pre + LeafIdsAll(a)) + LeafIdsAll(d) + (LeafIdsAll(c) + post);
    NotALeaf(t.id, pre, a, d, c, post);
    LinkedFrame(q, r, ls, t.id);
    One(t);
  }

  lemma {:induction false} NotALeaf(id: PageId, pre: seq<PageId>, a: seq<Node>, d: seq<Node>, c: seq<Node>,
                                    post: seq<PageId>)
    requires id !in IdsAll(a) && id !in IdsAll(d) && id !in IdsAll(c) && id !in pre && id !in post
    ensures id !in (pre + LeafIdsAll(a)) + LeafIdsAll(d) + (LeafIdsAll(c) + post)
  {
    LeafIdsAllOwned(a);
    LeafIdsAllOwned(d);
    LeafIdsAllOwned(c);
  }

  lemma {:induction false} SwappedInner(p: Pages, q: Pages, r: Pages, t: Node, t': Node, a: seq<Node>, b: seq<Node>,
                                        c: seq<Node>, d: seq<Node>, pre: seq<PageId>, post: seq<PageId>)
    requires t.Inner? && t.kids == a + b + c && t'.Inner? && t'.kids == a + d + c && t'.id == t.id && t.id in p
    requires Swapped(p, q, b, d, pre + LeafIdsAll(a), LeafIdsAll(c) + post) && SameBut(q, r, t.id)
    requires RepsAll(r, a) && RepsAll(r, c) && RepsAll(p, a) && RepsAll(p, c)
    requires Apart(IdsAll(a), IdsAll(b)) && Apart(IdsAll(b), IdsAll(c)) && t.id !in IdsAll(b)
    ensures Swapped(p, r, [t], [t'], pre, post)
  {
    hide IdsAll, Ids, LeafIdsAll, LeafIds, RepsAll, Reps;
    PartsIds(t, a, b, c);
    PartsIds(t', a, d, c);
    LeafIdsAllOwned(a);
    LeafIdsAllOwned(c);
    RepsAllIds(p, a);
    RepsAllIds(p, c);
  }

  lemma {:induction false} RepsInner(r: Pages, t: Node, a: seq<Node>, d: seq<Node>, c: seq<Node>)
    requires t.Inner? && t.kids == a + d + c && t.id in r && r[t.id] == InternalPage(t.keys, IdsOf(t.kids))
    requires RepsAll(r, a) && RepsAll(r, d) && RepsAll(r, c)
    ensures Reps(r, t)
  {
    forall i | 0 <= i < |t.kids| ensures Reps(r, t.kids[i]) {
      if i < |a| { assert t.kids[i] == a[i]; }
      else if i < |a| + |d| { assert t.kids[i] == d[i - |a|]; }
      else { assert t.kids[i] == c[i - |a| - |d|]; }
    }
  }

  lemma {:induction false} OutsideStays(q: Pages, a: seq<Node>, b: seq<Node>, c: seq<Node>, d: seq<Node>, t: Node,
                                        pre: seq<PageId>, post: seq<PageId>)
    requires Held(q, d, pre + LeafIdsAll(a), LeafIdsAll(c) + post) && t.Inner? && t.kids == a + b + c
    requires forall x :: x in pre || x in post ==> x !in IdsAll([t])
    ensures forall x :: x in pre || x in post ==> x !in multiset{t.id} + (IdsAll(a) + IdsAll(d) + IdsAll(c))
  {
    PartsIds(t, a, b, c);
  }

  /** The siblings of a replaced run, and the run itself, survive a rewrite of the parent. */
  lemma {:induction false} HeldAround(p: Pages, q: Pages, r: Pages, id: PageId, a: seq<Node>, b: seq<Node>,
                                      c: seq<Node>, d: seq<Node>, pre: seq<PageId>, post: seq<PageId>)
    requires RepsAll(p, a) && RepsAll(p, c) && RepsAll(q, d) && Swapped(p, q, b, d, pre, post) && SameBut(q, r, id)
    requires id in p && id !in IdsAll(a) && id !in IdsAll(b) && id !in IdsAll(c)
    requires Apart(IdsAll(a), IdsAll(b)) && Apart(IdsAll(b), IdsAll(c))
    ensures RepsAll(r, a) && RepsAll(r, c) && RepsAll(r, d)
    ensures Apart(IdsAll(a), IdsAll(d)) && Apart(IdsAll(d), IdsAll(c)) && id !in IdsAll(d)
  {
    RepsAllIds(p, a);
    RepsAllIds(p, c);
    RepsAllIds(q, d);
    RepsAllFrame(p, r, a);
    RepsAllFrame(p, r, c);
    RepsAllFrame(q, r, d);
  }

  lemma {:induction false} LinkedFrame(q: Pages, r: Pages, ls: seq<PageId>, id: PageId)
    requires Linked(q, ls) && id !in ls && SameBut(q, r, id)
    ensures Linked(r, ls)
  {
    LinkedLeaves(q, 0, ls, 0);
    ChainFrame(q, r, 0, ls, 0);
  }

  lemma {:induction false} LinkedLeaves(q: Pages, prev: PageId, ls: seq<PageId>, next: PageId)
    requires Chain(q, prev, ls, next)
    ensures forall x :: x in ls ==> x in q && q[x].LeafPage?
    decreases |ls|
  {
    if ls != [] { LinkedLeaves(q, ls[0], ls[1..], next); }
  }

  // ---- leaves -------------------------------------------------------------

  lemma {:induction false} HeldLeaf(p: Pages, id: PageId, cells: seq<Cell>, pre: seq<PageId>, post: seq<PageId>)
    requires Held(p, [Leaf(id, cells)], pre, post)
    ensures Linked(p, pre + [id] + post)
    ensures IdsAll([Leaf(id, cells)]) == multiset{id} && Reps(p, Leaf(id, cells))
  {
    var t := Leaf(id, cells);
    One(t);
    assert [t][0] == t;
  }

  /** Only the cells of a leaf changed. */
  lemma {:induction false} LeafRewritten(p: Pages, q: Pages, id: PageId, c: seq<Cell>, d: seq<Cell>,
                                         pre: seq<PageId>, post: seq<PageId>)
    requires Held(p, [Leaf(id, c)], pre, post) && id in p && p[id].LeafPage?
    requires q == p[id := LeafPage(p[id].left, p[id].right, d)]
    ensures Replaced(p, q, [Leaf(id, c)], [Leaf(id, d)], pre, post)
  {
    HeldLeaf(p, id, c, pre, post);
    One(Leaf(id, d));
    assert [Leaf(id, d)][0] == Leaf(id, d);
    LinkedLeaves(p, 0, pre + [id] + post, 0);
    ChainFrame(p, q, 0, pre + [id] + post, 0);
  }

  /** The left link of the leaf after a run is redirected, if there is one. */
  ghost function Relink(p: Pages, post: seq<PageId>, left: PageId): Pages {
    if post != [] && post[0] in p && p[post[0]].LeafPage? then p[post[0] := p[post[0]].(left := left)] else p
  }

  lemma {:induction false} TwoLeaves(x: PageId, c: seq<Cell>, r: PageId, d: seq<Cell>)
    ensures IdsAll([Leaf(x, c), Leaf(r, d)]) == multiset{x, r}
    ensures LeafIdsAll([Leaf(x, c), Leaf(r, d)]) == [x, r]
    ensures FlatAll([Leaf(x, c), Leaf(r, d)]) == c + d
    ensures NoDup(multiset{x, r}) <==> x != r
  {
    assert [Leaf(x, c), Leaf(r, d)] == [Leaf(x, c)] + [Leaf(r, d)];
    Append([Leaf(x, c)], [Leaf(r, d)]);
    One(Leaf(x, c));
    One(Leaf(r, d));
    assert multiset{x, r}[x] == if x == r then 2 else 1;
  }

  lemma {:induction false} LeafSplit(p: Pages, q: Pages, id: PageId, c: seq<Cell>, r: PageId, d: seq<Cell>,
                                     e: seq<Cell>, pre: seq<PageId>, post: seq<PageId>)
    requires Held(p, [Leaf(id, c)], pre, post) && id in p && p[id].LeafPage? && r !in p
    requires q == Relink(p[r := LeafPage(id, p[id].right, e)][id := LeafPage(p[id].left, r, d)], post, r)
    ensures Replaced(p, q, [Leaf(id, c)], [Leaf(id, d), Leaf(r, e)], pre, post)
  {
    HeldLeaf(p, id, c, pre, post);
    TwoLeaves(id, d, r, e);
    LinksAt(p, pre, id, post);
    LinkedLeaves(p, 0, pre + [id] + post, 0);
    PostOnce(pre, id, post);
    LinkSplit(p, q, pre, id, r, post);
    assert RepsAll(q, [Leaf(id, d), Leaf(r, e)]);
  }

  lemma {:induction false} PostOnce(pre: seq<PageId>, id: PageId, post: seq<PageId>)
    requires Distinct(pre + [id] + post)
    ensures post != [] ==> post[0] !in post[1..] && post[0] !in pre && post[0] != id
  {
    var ls := pre + [id] + post;
    assert forall i :: 0 <= i < |pre| ==> ls[i] == pre[i];
    assert ls[|pre|] == id;
    assert forall i :: 0 <= i < |post| ==> ls[|pre| + 1 + i] == post[i];
  }

  lemma {:induction false} LeafMerge(p: Pages, q: Pages, x: PageId, c: seq<Cell>, r: PageId, d: seq<Cell>,
                                     e: seq<Cell>, pre: seq<PageId>, post: seq<PageId>)
    requires Held(p, [Leaf(x, c), Leaf(r, d)], pre, post) && x in p && r in p && p[x].LeafPage? && p[r].LeafPage?
    requires q == Relink(p[x := LeafPage(p[x].left, p[r].right, e)], post, x) - {r}
    ensures Replaced(p, q, [Leaf(x, c), Leaf(r, d)], [Leaf(x, e)], pre, post)
  {
    TwoLeaves(x, c, r, d);
    One(Leaf(x, e));
    assert pre + [x, r] + post == pre + [x] + ([r] + post) == (pre + [x]) + [r] + post;
    LinksAt(p, pre, x, [r] + post);
    LinksAt(p, pre + [x], r, post);
    LinkedLeaves(p, 0, pre + [x, r] + post, 0);
    PostOnce(pre + [x], r, post);
    LinkMerge(p, q, pre, x, r, post);
    assert RepsAll(q, [Leaf(x, e)]);
  }

  /** Both leaves keep their links. */
  lemma {:induction false} LeavesRewritten(p: Pages, q: Pages, x: PageId, c: seq<Cell>, r: PageId, d: seq<Cell>,
                                           c': seq<Cell>, d': seq<Cell>, pre: seq<PageId>, post: seq<PageId>)
    requires Held(p, [Leaf(x, c), Leaf(r, d)], pre, post) && x in p && r in p && p[x].LeafPage? && p[r].LeafPage?
    requires q == p[x := LeafPage(p[x].left, p[x].right, c')][r := LeafPage(p[r].left, p[r].right, d')]
    ensures Replaced(p, q, [Leaf(x, c), Leaf(r, d)], [Leaf(x, c'), Leaf(r, d')], pre, post)
  {
    var ns := [Leaf(x, c'), Leaf(r, d')];
    TwoLeaves(x, c, r, d);
    TwoLeaves(x, c', r, d');
    LinkedLeaves(p, 0, pre + [x, r] + post, 0);
    ChainFrame(p, q, 0, pre + [x, r] + post, 0);
    assert RepsAll(q, ns);
  }

  // ---- internal pages -----------------------------------------------------

  lemma {:induction false} TwoInners(x: PageId, k: seq<Key>, a: seq<Node>, r: PageId, l: seq<Key>, b: seq<Node>)
    ensures IdsAll([Inner(x, k, a), Inner(r, l, b)]) == multiset{x, r} + IdsAll(a + b)
    ensures LeafIdsAll([Inner(x, k, a), Inner(r, l, b)]) == LeafIdsAll(a + b)
    ensures FlatAll([Inner(x, k, a), Inner(r, l, b)]) == FlatAll(a + b)
  {
    assert [Inner(x, k, a), Inner(r, l, b)] == [Inner(x, k, a)] + [Inner(r, l, b)];
    Append([Inner(x, k, a)], [Inner(r, l, b)]);
    One(Inner(x, k, a));
    One(Inner(r, l, b));
    Append(a, b);
  }

  lemma {:induction false} OneInner(x: PageId, k: seq<Key>, a: seq<Node>)
    ensures IdsAll([Inner(x, k, a)]) == multiset{x} + IdsAll(a)
    ensures LeafIdsAll([Inner(x, k, a)]) == LeafIdsAll(a)
    ensures FlatAll([Inner(x, k, a)]) == FlatAll(a)
  {
    One(Inner(x, k, a));
  }

  lemma {:induction false} NoDupPair(x: PageId, r: PageId, m: multiset<PageId>)
    ensures NoDup(multiset{x, r} + m) <==> x != r && x !in m && r !in m && NoDup(m)
    ensures NoDup(multiset{x} + m) <==> x !in m && NoDup(m)
  {
    NoDupSum(multiset{x, r}, m);
    NoDupSum(multiset{x}, m);
    assert multiset{x, r}[x] == if x == r then 2 else 1;
    assert x in multiset{x, r} && r in multiset{x, r} && x in multiset{x};
  }

  /** Children a + b are regrouped under pages x and r, which alone changed. */
  lemma {:induction false} Regrouped(p: Pages, q: Pages, olds: seq<Node>, x: PageId, k: seq<Key>, a: seq<Node>,
                                     r: PageId, l: seq<Key>, b: seq<Node>, pre: seq<PageId>, post: seq<PageId>)
    requires Held(p, olds, pre, post) && RepsAll(p, a + b) && x in p
    requires LeafIdsAll(olds) == LeafIdsAll(a + b) && x != r && x !in IdsAll(a + b) && r !in IdsAll(a + b)
    requires IdsAll(olds) == multiset{x, r} + IdsAll(a + b) || (r !in p && IdsAll(olds) == multiset{x} + IdsAll(a + b))
    requires q == p[x := InternalPage(k, IdsOf(a))][r := InternalPage(l, IdsOf(b))]
    ensures Replaced(p, q, olds, [Inner(x, k, a), Inner(r, l, b)], pre, post)
  {
    TwoInners(x, k, a, r, l, b);
    assert Held(q, [Inner(x, k, a), Inner(r, l, b)], pre, post) by {
      NoDupPair(x, r, IdsAll(a + b));
      RegroupedReps(p, q, x, k, a, r, l, b);
      StillLinked(p, q, olds, a + b, x, r, pre, post);
      RNotListed(p, olds, a + b, x, r, pre, post);
    }
    SwappedPair(p, q, olds, [Inner(x, k, a), Inner(r, l, b)], a + b, x, r, pre, post);
  }

  lemma {:induction false} SwappedPair(p: Pages, q: Pages, olds: seq<Node>, ns: seq<Node>, kids: seq<Node>,
                                       x: PageId, r: PageId, pre: seq<PageId>, post: seq<PageId>)
    requires RepsAll(p, kids) && x in p && x !in IdsAll(kids) && r !in IdsAll(kids)
    requires IdsAll(olds) == multiset{x, r} + IdsAll(kids) || (r !in p && IdsAll(olds) == multiset{x} + IdsAll(kids))
    requires IdsAll(ns) == multiset{x, r} + IdsAll(kids) || (r !in q && IdsAll(ns) == multiset{x} + IdsAll(kids))
    requires forall y :: y in p && y != x && y != r ==> y in q && q[y] == p[y]
    requires forall y :: y in q ==> y in p || y == x || y == r
    ensures Swapped(p, q, olds, ns, pre, post)
  {
    RepsAllIds(p, kids);
    hide IdsAll, RepsAll;
    PairMembers(IdsAll(olds), x, r, IdsAll(kids));
    PairMembers(IdsAll(ns), x, r, IdsAll(kids));
  }

  lemma {:induction false} PairMembers(m: multiset<PageId>, x: PageId, r: PageId, rest: multiset<PageId>)
    requires m == multiset{x, r} + rest || m == multiset{x} + rest
    ensures forall y :: y in m <==> y == x || y in rest || (y == r && m == multiset{x, r} + rest)
  {
    forall y ensures y in m <==> y == x || y in rest || (y == r && m == multiset{x, r} + rest) {}
  }

  lemma {:induction false} RegroupedReps(p: Pages, q: Pages, x: PageId, k: seq<Key>, a: seq<Node>, r: PageId,
                                         l: seq<Key>, b: seq<Node>)
    requires RepsAll(p, a + b) && x != r && x !in IdsAll(a + b) && r !in IdsAll(a + b)
    requires q == p[x := InternalPage(k, IdsOf(a))][r := InternalPage(l, IdsOf(b))]
    ensures RepsAll(q, [Inner(x, k, a), Inner(r, l, b)])
  {
    RepsAllIds(p, a + b);
    RepsAllFrame(p, q, a + b);
    forall i | 0 <= i < |a| ensures Reps(q, a[i]) { assert (a + b)[i] == a[i]; }
    forall i | 0 <= i < |b| ensures Reps(q, b[i]) { assert (a + b)[|a| + i] == b[i]; }
    assert Reps(q, Inner(x, k, a)) && Reps(q, Inner(r, l, b));
  }

  /** Rewriting or dropping internal pages leaves the sibling links alone. */
  lemma {:induction false} StillLinked(p: Pages, q: Pages, olds: seq<Node>, kids: seq<Node>, x: PageId, r: PageId,
                                       pre: seq<PageId>, post: seq<PageId>)
    requires Held(p, olds, pre, post) && LeafIdsAll(olds) == LeafIdsAll(kids) && x !in IdsAll(kids)
      && r !in IdsAll(kids)
    requires IdsAll(olds) == multiset{x, r} + IdsAll(kids) || (r !in p && IdsAll(olds) == multiset{x} + IdsAll(kids))
    requires forall y :: y in p && y != x && y != r ==> y in q && q[y] == p[y]
    ensures Linked(q, pre + LeafIdsAll(kids) + post)
  {
    var ls := pre + LeafIdsAll(kids) + post;
    LinkedLeaves(p, 0, ls, 0);
    LeafIdsAllOwned(kids);
    RNotListed(p, olds, kids, x, r, pre, post);
    ChainFrame(p, q, 0, ls, 0);
  }

  lemma {:induction false} RNotListed(p: Pages, olds: seq<Node>, kids: seq<Node>, x: PageId, r: PageId,
                                      pre: seq<PageId>, post: seq<PageId>)
    requires Held(p, olds, pre, post)
    requires IdsAll(olds) == multiset{x, r} + IdsAll(kids) || (r !in p && IdsAll(olds) == multiset{x} + IdsAll(kids))
    ensures x !in pre && r !in pre && x !in post && r !in post
  {
    var ls := pre + LeafIdsAll(olds) + post;
    LinkedLeaves(p, 0, ls, 0);
    assert forall y :: y in pre || y in post ==> y in ls;
    assert x in IdsAll(olds);
  }

  lemma {:induction false} InnerSplit(p: Pages, q: Pages, x: PageId, keys: seq<Key>, k: seq<Key>, a: seq<Node>,
                                      r: PageId, l: seq<Key>, b: seq<Node>, pre: seq<PageId>, post: seq<PageId>)
    requires Held(p, [Inner(x, keys, a + b)], pre, post) && r !in p
    requires q == p[x := InternalPage(k, IdsOf(a))][r := InternalPage(l, IdsOf(b))]
    ensures Replaced(p, q, [Inner(x, keys, a + b)], [Inner(x, k, a), Inner(r, l, b)], pre, post)
  {
    var t := Inner(x, keys, a + b);
    assert [t][0] == t;
    OneInner(x, keys, a + b);
    NoDupPair(x, r, IdsAll(a + b));
    RepsAllIds(p, a + b);
    Regrouped(p, q, [t], x, k, a, r, l, b, pre, post);
  }

  lemma {:induction false} InnerShift(p: Pages, q: Pages, x: PageId, k: seq<Key>, a: seq<Node>, r: PageId,
                                      l: seq<Key>, b: seq<Node>,
                                      k': seq<Key>, a': seq<Node>, l': seq<Key>, b': seq<Node>, pre: seq<PageId>,
                                      post: seq<PageId>)
    requires Held(p, [Inner(x, k, a), Inner(r, l, b)], pre, post) && a + b == a' + b'
    requires q == p[x := InternalPage(k', IdsOf(a'))][r := InternalPage(l', IdsOf(b'))]
    ensures Replaced(p, q, [Inner(x, k, a), Inner(r, l, b)], [Inner(x, k', a'), Inner(r, l', b')], pre, post)
  {
    TwoInners(x, k, a, r, l, b);
    NoDupPair(x, r, IdsAll(a + b));
    RepsPair(p, x, k, a, r, l, b);
    Regrouped(p, q, [Inner(x, k, a), Inner(r, l, b)], x, k', a', r, l', b', pre, post);
  }

  lemma {:induction false} RepsPair(p: Pages, x: PageId, k: seq<Key>, a: seq<Node>, r: PageId, l: seq<Key>,
                                    b: seq<Node>)
    requires RepsAll(p, [Inner(x, k, a), Inner(r, l, b)])
    ensures RepsAll(p, a + b)
  {
    var ns := [Inner(x, k, a), Inner(r, l, b)];
    assert Reps(p, ns[0]) && Reps(p, ns[1]);
    forall i | 0 <= i < |a + b| ensures Reps(p, (a + b)[i]) {
      if i < |a| { assert (a + b)[i] == a[i]; } else { assert (a + b)[i] == b[i - |a|]; }
    }
  }

  lemma {:induction false} InnerMerge(p: Pages, q: Pages, x: PageId, k: seq<Key>, a: seq<Node>, r: PageId,
                                      l: seq<Key>, b: seq<Node>, keys: seq<Key>, pre: seq<PageId>,
                                      post: seq<PageId>)
    requires Held(p, [Inner(x, k, a), Inner(r, l, b)], pre, post)
    requires q == p[x := InternalPage(keys, IdsOf(a + b))] - {r}
    ensures Replaced(p, q, [Inner(x, k, a), Inner(r, l, b)], [Inner(x, keys, a + b)], pre, post)
  {
    var olds := [Inner(x, k, a), Inner(r, l, b)];
    TwoInners(x, k, a, r, l, b);
    OneInner(x, keys, a + b);
    NoDupPair(x, r, IdsAll(a + b));
    RepsPair(p, x, k, a, r, l, b);
    MergedHeld(p, q, olds, x, keys, a + b, r, pre, post);
    assert Reps(p, olds[0]);
    SwappedPair(p, q, olds, [Inner(x, keys, a + b)], a + b, x, r, pre, post);
  }

  lemma {:induction false} MergedHeld(p: Pages, q: Pages, olds: seq<Node>, x: PageId, keys: seq<Key>,
                                      kids: seq<Node>, r: PageId, pre: seq<PageId>, post: seq<PageId>)
    requires Held(p, olds, pre, post) && RepsAll(p, kids) && LeafIdsAll(olds) == LeafIdsAll(kids)
    requires IdsAll(olds) == multiset{x, r} + IdsAll(kids) && x != r && x !in IdsAll(kids) && r !in IdsAll(kids)
      && NoDup(IdsAll(kids))
    requires q == p[x := InternalPage(keys, IdsOf(kids))] - {r}
    ensures Held(q, [Inner(x, keys, kids)], pre, post)
  {
    var t := Inner(x, keys, kids);
    OneInner(x, keys, kids);
    NoDupPair(x, r, IdsAll(kids));
    RepsAllIds(p, kids);
    RepsAllFrame(p, q, kids);
    assert [t][0] == t && Reps(q, t);
    StillLinked(p, q, olds, kids, x, r, pre, post);
    RNotListed(p, olds, kids, x, r, pre, post);
  }
}
