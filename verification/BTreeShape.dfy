/**
 * The mathematical content of a B+tree: what the pages under one root slot mean.
 *
 * A `Node` is a ghost picture of a subtree. `Flat` is its content in key order,
 * `Shape` the ordering, bounds and uniform-depth invariant, `Ids` the pages it
 * owns and `LeafIds` its leaves from left to right.
 */
module BTreeShape {
  import opened Bytes

  type PageId = nat

  datatype Cell = Cell(key: Key, val: seq<Byte>)

  datatype Page =
    | LeafPage(left: PageId, right: PageId, cells: seq<Cell>)
    | InternalPage(keys: seq<Key>, children: seq<PageId>)

  datatype Node =
    | Leaf(id: PageId, cells: seq<Cell>)
    | Inner(id: PageId, keys: seq<Key>, kids: seq<Node>)

  /** An end of a half-open key interval. */
  datatype Bound = Open | At(key: Key)

  predicate AboveLo(k: Key, lo: Bound) { lo.At? ==> !Less(k, lo.key) }
  predicate BelowHi(k: Key, hi: Bound) { hi.At? ==> Less(k, hi.key) }
  predicate InRange(k: Key, lo: Bound, hi: Bound) { AboveLo(k, lo) && BelowHi(k, hi) }

  function LoAt(keys: seq<Key>, lo: Bound, i: nat): Bound
    requires i <= |keys|
  { if i == 0 then lo else At(keys[i-1]) }

  function HiAt(keys: seq<Key>, hi: Bound, i: nat): Bound
    requires i <= |keys|
  { if i == |keys| then hi else At(keys[i]) }

  predicate Sorted(cells: seq<Cell>) {
    forall i, j :: 0 <= i < j < |cells| ==> Less(cells[i].key, cells[j].key)
  }

  predicate CellsIn(cells: seq<Cell>, lo: Bound, hi: Bound) {
    forall i :: 0 <= i < |cells| ==> InRange(cells[i].key, lo, hi)
  }

  /** Separators lie strictly inside their interval. */
  predicate Inside(k: Key, lo: Bound, hi: Bound) { (lo.At? ==> Less(lo.key, k)) && BelowHi(k, hi) }

  predicate KeysIn(keys: seq<Key>, lo: Bound, hi: Bound) {
    forall i :: 0 <= i < |keys| ==> Inside(keys[i], lo, hi)
  }

  /** Not an empty leaf, and not an internal page without a separator. */
  predicate Full(t: Node) {
    match t
    case Leaf(_, cells) => cells != []
    case Inner(_, keys, _) => keys != []
  }

  predicate AllFull(kids: seq<Node>) { forall i :: 0 <= i < |kids| ==> Full(kids[i]) }

  /** Everything but the topmost page is full. A separator is a lower bound of
      the subtree to its right; it need not be a key that is still stored. */
  ghost predicate Shape(t: Node, h: nat, lo: Bound, hi: Bound)
    decreases t, 1
  {
    match t
    case Leaf(_, cells) => h == 0 && Sorted(cells) && CellsIn(cells, lo, hi)
    case Inner(_, keys, kids) => h > 0 && KidsShape(keys, kids, h - 1, lo, hi) && AllFull(kids)
  }

  ghost predicate KidsShape(keys: seq<Key>, kids: seq<Node>, h: nat, lo: Bound, hi: Bound)
    decreases kids, 0
  {
    && |kids| == |keys| + 1
    && SortedKeys(keys)
    && KeysIn(keys, lo, hi)
    && forall i :: 0 <= i < |kids| ==> Shape(kids[i], h, LoAt(keys, lo, i), HiAt(keys, hi, i))
  }

  ghost function Ids(t: Node): (ids: multiset<PageId>)
    ensures t.id in ids
    decreases t, 1
  {
    match t
    case Leaf(id, _) => multiset{id}
    case Inner(id, _, kids) => multiset{id} + IdsAll(kids)
  }

  ghost function IdsAll(kids: seq<Node>): multiset<PageId>
    decreases kids, 0
  { if kids == [] then multiset{} else Ids(kids[0]) + IdsAll(kids[1..]) }

  ghost function Flat(t: Node): seq<Cell>
    decreases t, 1
  {
    match t
    case Leaf(_, cells) => cells
    case Inner(_, _, kids) => FlatAll(kids)
  }

  ghost function FlatAll(kids: seq<Node>): seq<Cell>
    decreases kids, 0
  { if kids == [] then [] else Flat(kids[0]) + FlatAll(kids[1..]) }

  ghost function LeafIds(t: Node): seq<PageId>
    decreases t, 1
  {
    match t
    case Leaf(id, _) => [id]
    case Inner(_, _, kids) => LeafIdsAll(kids)
  }

  ghost function LeafIdsAll(kids: seq<Node>): seq<PageId>
    decreases kids, 0
  { if kids == [] then [] else LeafIds(kids[0]) + LeafIdsAll(kids[1..]) }

  function IdsOf(kids: seq<Node>): (ids: seq<PageId>)
    ensures |ids| == |kids| && forall i :: 0 <= i < |ids| ==> ids[i] == kids[i].id
  { seq(|kids|, i requires 0 <= i < |kids| => kids[i].id) }

  ghost predicate NoDup(ids: multiset<PageId>) { forall x :: x in ids ==> ids[x] == 1 }

  predicate Distinct(s: seq<PageId>) { forall i, j :: 0 <= i < j < |s| ==> s[i] != s[j] }

  // ---- concatenation ------------------------------------------------------

  lemma {:induction false} Append(a: seq<Node>, b: seq<Node>)
    ensures IdsAll(a + b) == IdsAll(a) + IdsAll(b)
    ensures FlatAll(a + b) == FlatAll(a) + FlatAll(b)
    ensures LeafIdsAll(a + b) == LeafIdsAll(a) + LeafIdsAll(b)
  {
    hide Ids, Flat, LeafIds;
    if a == [] {
      assert a + b == b;
    } else {
      assert (a + b)[1..] == a[1..] + b;
      Append(a[1..], b);
    }
  }

  lemma One(t: Node)
    ensures IdsAll([t]) == Ids(t) && FlatAll([t]) == Flat(t) && LeafIdsAll([t]) == LeafIds(t)
  {
    assert [t][1..] == [];
  }

  /** A list of children around position i. */
  lemma {:induction false} Around(kids: seq<Node>, i: nat)
    requires i < |kids|
    ensures IdsAll(kids) == IdsAll(kids[..i]) + Ids(kids[i]) + IdsAll(kids[i+1..])
    ensures FlatAll(kids) == FlatAll(kids[..i]) + Flat(kids[i]) + FlatAll(kids[i+1..])
    ensures LeafIdsAll(kids) == LeafIdsAll(kids[..i]) + LeafIds(kids[i]) + LeafIdsAll(kids[i+1..])
  {
    assert kids == kids[..i] + ([kids[i]] + kids[i+1..]);
    Append(kids[..i], [kids[i]] + kids[i+1..]);
    Append([kids[i]], kids[i+1..]);
    One(kids[i]);
  }

  /** Two runs of children meet at separator s. */
  lemma {:induction false} Join(k1: seq<Key>, c1: seq<Node>, s: Key, k2: seq<Key>, c2: seq<Node>, h: nat, lo: Bound,
                                hi: Bound)
    requires KidsShape(k1, c1, h, lo, At(s)) && KidsShape(k2, c2, h, At(s), hi)
    requires Inside(s, lo, hi)
    ensures KidsShape(k1 + [s] + k2, c1 + c2, h, lo, hi)
  {
    Laws();
    var keys, kids := k1 + [s] + k2, c1 + c2;
    forall i | 0 <= i < |kids| ensures Shape(kids[i], h, LoAt(keys, lo, i), HiAt(keys, hi, i)) {
      if i < |c1| {
        assert kids[i] == c1[i];
        assert LoAt(keys, lo, i) == LoAt(k1, lo, i) && HiAt(keys, hi, i) == HiAt(k1, At(s), i);
      } else {
        assert kids[i] == c2[i - |c1|];
        assert LoAt(keys, lo, i) == LoAt(k2, At(s), i - |c1|) && HiAt(keys, hi, i) == HiAt(k2, hi, i - |c1|);
      }
    }
  }

  /** A run of children is cut at separator i. */
  lemma {:induction false} Cut(keys: seq<Key>, kids: seq<Node>, i: nat, h: nat, lo: Bound, hi: Bound)
    requires KidsShape(keys, kids, h, lo, hi) && i < |keys|
    ensures KidsShape(keys[..i], kids[..i+1], h, lo, At(keys[i]))
    ensures KidsShape(keys[i+1..], kids[i+1..], h, At(keys[i]), hi)
    ensures Inside(keys[i], lo, hi)
  {
    Laws();
    var k1, c1, k2, c2 := keys[..i], kids[..i+1], keys[i+1..], kids[i+1..];
    forall j | 0 <= j < |c1| ensures Shape(c1[j], h, LoAt(k1, lo, j), HiAt(k1, At(keys[i]), j)) {
      assert c1[j] == kids[j];
    }
    forall j | 0 <= j < |c2| ensures Shape(c2[j], h, LoAt(k2, At(keys[i]), j), HiAt(k2, hi, j)) {
      assert c2[j] == kids[i + 1 + j];
    }
  }

  lemma KidsOne(t: Node, h: nat, lo: Bound, hi: Bound)
    ensures KidsShape([], [t], h, lo, hi) <==> Shape(t, h, lo, hi)
  {
    assert [t][0] == t;
    assert LoAt([], lo, 0) == lo && HiAt([], hi, 0) == hi;
  }

  // ---- order of the flattened content -------------------------------------

  predicate AllBelow(cells: seq<Cell>, k: Key) { forall i :: 0 <= i < |cells| ==> Less(cells[i].key, k) }
  predicate AllFrom(cells: seq<Cell>, k: Key) { forall i :: 0 <= i < |cells| ==> !Less(cells[i].key, k) }
  predicate AllAbove(cells: seq<Cell>, k: Key) { forall i :: 0 <= i < |cells| ==> Less(k, cells[i].key) }

  lemma {:induction false} FlatOrdered(t: Node, h: nat, lo: Bound, hi: Bound)
    requires Shape(t, h, lo, hi)
    ensures Sorted(Flat(t)) && CellsIn(Flat(t), lo, hi)
    ensures Full(t) ==> Flat(t) != []
    decreases t, 1
  {
    if t.Inner? { FlatAllOrdered(t.keys, t.kids, h - 1, lo, hi); }
  }

  lemma {:induction false} FlatAllOrdered(keys: seq<Key>, kids: seq<Node>, h: nat, lo: Bound, hi: Bound)
    requires KidsShape(keys, kids, h, lo, hi)
    ensures Sorted(FlatAll(kids)) && CellsIn(FlatAll(kids), lo, hi)
    ensures Full(kids[0]) ==> FlatAll(kids) != []
    decreases kids, 0
  {
    FlatOrdered(kids[0], h, LoAt(keys, lo, 0), HiAt(keys, hi, 0));
    if |keys| > 0 {
      Cut(keys, kids, 0, h, lo, hi);
      FlatAllOrdered(keys[1..], kids[1..], h, At(keys[0]), hi);
      Laws();
    }
  }

  /** The content left and right of the child that owns key k. */
  lemma {:induction false} FlatAside(keys: seq<Key>, kids: seq<Node>, i: nat, h: nat, lo: Bound, hi: Bound, k: Key)
    requires KidsShape(keys, kids, h, lo, hi) && i < |kids|
    requires InRange(k, LoAt(keys, lo, i), HiAt(keys, hi, i))
    ensures AllBelow(FlatAll(kids[..i]), k) && AllAbove(FlatAll(kids[i+1..]), k)
  {
    Laws();
    if i > 0 {
      Cut(keys, kids, i - 1, h, lo, hi);
      FlatAllOrdered(keys[..i-1], kids[..i], h, lo, At(keys[i-1]));
    }
    if i < |keys| {
      Cut(keys, kids, i, h, lo, hi);
      FlatAllOrdered(keys[i+1..], kids[i+1..], h, At(keys[i]), hi);
    }
  }

  lemma {:induction false} TightenLo(t: Node, h: nat, lo: Bound, hi: Bound, s: Key)
    requires Shape(t, h, lo, hi) && Full(t) && Flat(t) != [] && Flat(t)[0].key == s
    ensures Shape(t, h, At(s), hi)
    decreases t
  {
    Laws();
    if t.Leaf? { return; }
    var keys, kids := t.keys, t.kids;
    FlatOrdered(kids[0], h - 1, LoAt(keys, lo, 0), HiAt(keys, hi, 0));
    TightenLo(kids[0], h - 1, LoAt(keys, lo, 0), HiAt(keys, hi, 0), s);
    forall i | 0 <= i < |kids| ensures Shape(kids[i], h - 1, LoAt(keys, At(s), i), HiAt(keys, hi, i)) {
      if i > 0 { assert LoAt(keys, At(s), i) == LoAt(keys, lo, i); }
    }
    assert Inside(keys[0], At(s), hi);
  }

  lemma {:induction false} WeakenHi(t: Node, h: nat, lo: Bound, k: Key, s: Key)
    requires Shape(t, h, lo, At(k)) && !Less(s, k)
    ensures Shape(t, h, lo, At(s))
    decreases t
  {
    Laws();
    if t.Leaf? { return; }
    var keys, kids := t.keys, t.kids;
    var n := |keys|;
    WeakenHi(kids[n], h - 1, LoAt(keys, lo, n), k, s);
    forall i | 0 <= i < |kids| ensures Shape(kids[i], h - 1, LoAt(keys, lo, i), HiAt(keys, At(s), i)) {
      if i < n { assert HiAt(keys, At(s), i) == HiAt(keys, At(k), i); }
    }
  }

  // ---- sorted cell lists as maps ------------------------------------------

  ghost function SeqPut(cs: seq<Cell>, k: Key, v: seq<Byte>): seq<Cell> {
    if cs == [] then [Cell(k, v)]
    else if Less(cs[0].key, k) then [cs[0]] + SeqPut(cs[1..], k, v)
    else if cs[0].key == k then [Cell(k, v)] + cs[1..]
    else [Cell(k, v)] + cs
  }

  ghost function SeqDel(cs: seq<Cell>, k: Key): seq<Cell> {
    if cs == [] then []
    else if cs[0].key == k then cs[1..]
    else [cs[0]] + SeqDel(cs[1..], k)
  }

  ghost function MapOf(cs: seq<Cell>): map<Key, seq<Byte>> {
    if cs == [] then map[] else MapOf(cs[1..])[cs[0].key := cs[0].val]
  }

  lemma {:induction false} PutAround(a: seq<Cell>, b: seq<Cell>, c: seq<Cell>, k: Key, v: seq<Byte>)
    requires AllBelow(a, k) && AllAbove(c, k)
    ensures SeqPut(a + b + c, k, v) == a + SeqPut(b, k, v) + c
  {
    hide SeqPut;
    Assoc(a, b, c);
    PutAfter(a, b + c, k, v);
    PutBefore(b, c, k, v);
    Assoc(a, SeqPut(b, k, v), c);
  }

  lemma {:induction false} PutAfter(a: seq<Cell>, b: seq<Cell>, k: Key, v: seq<Byte>)
    requires AllBelow(a, k)
    ensures SeqPut(a + b, k, v) == a + SeqPut(b, k, v)
  {
    if a == [] { assert a + b == b; }
    else {
      assert (a + b)[1..] == a[1..] + b;
      PutAfter(a[1..], b, k, v);
    }
  }

  lemma {:induction false} PutBefore(b: seq<Cell>, c: seq<Cell>, k: Key, v: seq<Byte>)
    requires AllAbove(c, k)
    ensures SeqPut(b + c, k, v) == SeqPut(b, k, v) + c
  {
    hide Less;
    if b == [] {
      assert b + c == c;
      if c != [] { LessAsymmetric(k, c[0].key); }
    } else {
      assert (b + c)[1..] == b[1..] + c;
      if Less(b[0].key, k) { PutBefore(b[1..], c, k, v); }
    }
  }

  lemma {:induction false} DelAround(a: seq<Cell>, b: seq<Cell>, c: seq<Cell>, k: Key)
    requires AllBelow(a, k) && AllAbove(c, k)
    ensures SeqDel(a + b + c, k) == a + SeqDel(b, k) + c
    decreases |a|, |b|
  {
    Laws();
    if a != [] {
      assert (a + b + c)[1..] == a[1..] + b + c;
      DelAround(a[1..], b, c, k);
    } else if b != [] {
      assert (a + b + c)[1..] == a + b[1..] + c;
      if b[0].key != k { DelAround(a, b[1..], c, k); }
    } else {
      assert a + b + c == c;
      DelAbsent(c, k);
    }
  }

  lemma {:induction false} DelAbsent(c: seq<Cell>, k: Key)
    requires forall i :: 0 <= i < |c| ==> c[i].key != k
    ensures SeqDel(c, k) == c
  {
    if c != [] { DelAbsent(c[1..], k); }
  }

  /** What leafSearch's answer i means for the page. */
  lemma {:induction false} PutIndex(cs: seq<Cell>, i: nat, k: Key, v: seq<Byte>)
    requires i <= |cs| && AllBelow(cs[..i], k) && AllFrom(cs[i..], k)
    ensures SeqPut(cs, k, v) == if i < |cs| && cs[i].key == k then cs[i := Cell(k, v)]
      else cs[..i] + [Cell(k, v)] + cs[i..]
  {
    var a, b := cs[..i], cs[i..];
    assert cs == a + b + [];
    PutAround(a, b, [], k, v);
    assert b != [] ==> b[0] == cs[i] && b[1..] == cs[i+1..];
  }

  lemma {:induction false} DelIndex(cs: seq<Cell>, i: nat, k: Key)
    requires Sorted(cs) && i <= |cs| && AllBelow(cs[..i], k) && AllFrom(cs[i..], k)
    ensures SeqDel(cs, k) == if i < |cs| && cs[i].key == k then cs[..i] + cs[i+1..] else cs
  {
    var a, b := cs[..i], cs[i..];
    assert cs == a + b + [];
    DelAround(a, b, [], k);
    assert b != [] ==> b[0] == cs[i] && b[1..] == cs[i+1..];
    if b != [] && b[0].key != k {
      AboveHead(b, k);
      DelAbsent(b, k);
    }
  }

  lemma AboveHead(b: seq<Cell>, k: Key)
    requires Sorted(b) && b != [] && b[0].key != k && AllFrom(b, k)
    ensures forall i :: 0 <= i < |b| ==> b[i].key != k
  {
    Laws();
    assert Less(k, b[0].key);
  }

  lemma {:induction false} FoundAt(cs: seq<Cell>, i: nat, k: Key)
    requires Sorted(cs) && i <= |cs| && AllBelow(cs[..i], k) && AllFrom(cs[i..], k)
    ensures i < |cs| && cs[i].key == k <==> k in MapOf(cs)
    ensures i < |cs| && cs[i].key == k ==> MapOf(cs)[k] == cs[i].val
  {
    Laws();
    MapMembers(cs, k);
    if i < |cs| && cs[i].key == k { MapAt(cs, i); }
    assert cs == cs[..i] + cs[i..];
  }

  lemma {:induction false} MapAt(cs: seq<Cell>, i: nat)
    requires Sorted(cs) && i < |cs|
    ensures cs[i].key in MapOf(cs) && MapOf(cs)[cs[i].key] == cs[i].val
  {
    Laws();
    if i > 0 { MapAt(cs[1..], i - 1); assert Less(cs[0].key, cs[i].key); }
  }

  lemma {:induction false} MapMembers(cs: seq<Cell>, k: Key)
    ensures k in MapOf(cs) <==> exists i :: 0 <= i < |cs| && cs[i].key == k
  {
    if cs != [] {
      MapMembers(cs[1..], k);
      if i :| 0 <= i < |cs| && cs[i].key == k { assert i > 0 ==> cs[1..][i-1].key == k; }
    }
  }

  lemma {:induction false} MapPut(cs: seq<Cell>, k: Key, v: seq<Byte>)
    requires Sorted(cs)
    ensures MapOf(SeqPut(cs, k, v)) == MapOf(cs)[k := v]
  {
    Laws();
    if cs != [] {
      var s := SeqPut(cs, k, v);
      if Less(cs[0].key, k) {
        MapPut(cs[1..], k, v);
        assert s[1..] == SeqPut(cs[1..], k, v);
      } else if cs[0].key == k {
        assert s[1..] == cs[1..];
      } else {
        assert s[1..] == cs;
      }
    }
  }

  lemma {:induction false} MapDel(cs: seq<Cell>, k: Key)
    requires Sorted(cs)
    ensures MapOf(SeqDel(cs, k)) == MapOf(cs) - {k}
  {
    Laws();
    if cs != [] {
      if cs[0].key == k {
        MapMembers(cs[1..], k);
        forall i | 0 <= i < |cs[1..]| ensures cs[1..][i].key != k { assert Less(cs[0].key, cs[i+1].key); }
      } else {
        MapDel(cs[1..], k);
        assert SeqDel(cs, k)[1..] == SeqDel(cs[1..], k);
      }
    }
  }

  // ---- pages --------------------------------------------------------------

  /** Equal up to the sibling links of a leaf. */
  predicate SameBody(p: Page, q: Page) {
    if p.LeafPage? then q.LeafPage? && q.cells == p.cells else p == q
  }

  ghost predicate Kept(p: map<PageId, Page>, q: map<PageId, Page>, ids: multiset<PageId>) {
    forall x :: x in ids ==> x in p && x in q && SameBody(p[x], q[x])
  }

  /** The pages hold the subtree t. Sibling links are `Linked`'s business. */
  ghost predicate Reps(pages: map<PageId, Page>, t: Node)
    decreases t
  {
    t.id in pages &&
    match t
    case Leaf(id, cells) => pages[id].LeafPage? && pages[id].cells == cells
    case Inner(id, keys, kids) =>
      && pages[id] == InternalPage(keys, IdsOf(kids))
      && forall i :: 0 <= i < |kids| ==> Reps(pages, kids[i])
  }

  ghost predicate RepsAll(pages: map<PageId, Page>, kids: seq<Node>) {
    forall i :: 0 <= i < |kids| ==> Reps(pages, kids[i])
  }

  lemma {:induction false} RepsFrame(p: map<PageId, Page>, q: map<PageId, Page>, t: Node)
    requires Reps(p, t) && Kept(p, q, Ids(t))
    ensures Reps(q, t)
    decreases t, 1
  {
    if t.Inner? { RepsAllFrame(p, q, t.kids); }
  }

  lemma {:induction false} RepsAllFrame(p: map<PageId, Page>, q: map<PageId, Page>, kids: seq<Node>)
    requires RepsAll(p, kids) && Kept(p, q, IdsAll(kids))
    ensures RepsAll(q, kids)
    decreases kids, 0
  {
    if kids != [] {
      RepsFrame(p, q, kids[0]);
      RepsAllFrame(p, q, kids[1..]);
      forall i | 0 <= i < |kids| ensures Reps(q, kids[i]) {
        if i > 0 { assert kids[i] == kids[1..][i-1]; }
      }
    }
  }

  lemma {:induction false} RepsIds(p: map<PageId, Page>, t: Node)
    requires Reps(p, t)
    ensures forall x :: x in Ids(t) ==> x in p
    decreases t, 1
  {
    if t.Inner? { RepsAllIds(p, t.kids); }
  }

  lemma {:induction false} RepsAllIds(p: map<PageId, Page>, kids: seq<Node>)
    requires RepsAll(p, kids)
    ensures forall x :: x in IdsAll(kids) ==> x in p
    decreases kids, 0
  {
    if kids != [] { RepsIds(p, kids[0]); RepsAllIds(p, kids[1..]); }
  }

  lemma {:induction false} LeafIdsOwned(t: Node)
    ensures forall x :: x in LeafIds(t) ==> x in Ids(t)
    decreases t, 1
  {
    if t.Inner? { LeafIdsAllOwned(t.kids); }
  }

  lemma {:induction false} LeafIdsAllOwned(kids: seq<Node>)
    ensures forall x :: x in LeafIdsAll(kids) ==> x in IdsAll(kids)
    decreases kids, 0
  {
    if kids != [] { LeafIdsOwned(kids[0]); LeafIdsAllOwned(kids[1..]); }
  }

  // ---- sibling links ------------------------------------------------------

  /** Page x is a leaf with the given links. */
  predicate LeafWith(pages: map<PageId, Page>, x: PageId, left: PageId, right: PageId) {
    x in pages && pages[x].LeafPage? && pages[x].left == left && pages[x].right == right
  }

  function First(ls: seq<PageId>, next: PageId): PageId { if ls == [] then next else ls[0] }
  function Last(prev: PageId, ls: seq<PageId>): PageId { if ls == [] then prev else ls[|ls|-1] }

  /** The leaves ls are threaded in order between prev and next. */
  predicate Chain(pages: map<PageId, Page>, prev: PageId, ls: seq<PageId>, next: PageId)
    decreases |ls|
  {
    ls == [] || (LeafWith(pages, ls[0], prev, First(ls[1..], next)) && Chain(pages, ls[0], ls[1..], next))
  }

  /** The sibling links thread exactly the leaves ls, in order. */
  predicate Linked(pages: map<PageId, Page>, ls: seq<PageId>) { Distinct(ls) && Chain(pages, 0, ls, 0) }

  lemma {:induction false} ChainSplice(pages: map<PageId, Page>, prev: PageId, a: seq<PageId>, b: seq<PageId>,
                                       next: PageId)
    ensures Chain(pages, prev, a + b, next) <==>
      Chain(pages, prev, a, First(b, next)) && Chain(pages, Last(prev, a), b, next)
    decreases |a|
  {
    if a == [] {
      assert a + b == b;
    } else {
      assert (a + b)[1..] == a[1..] + b;
      ChainSplice(pages, a[0], a[1..], b, next);
    }
  }

  lemma {:induction false} ChainFrame(p: map<PageId, Page>, q: map<PageId, Page>, prev: PageId, ls: seq<PageId>,
                                      next: PageId)
    requires Chain(p, prev, ls, next) && SameLinks(p, q, ls)
    ensures Chain(q, prev, ls, next)
    decreases |ls|
  {
    if ls != [] { ChainFrame(p, q, ls[0], ls[1..], next); }
  }

  lemma DistinctInsert(a: seq<PageId>, r: PageId, b: seq<PageId>)
    requires Distinct(a + b) && r !in a + b
    ensures Distinct(a + [r] + b)
  {
    var ls, ms := a + b, a + [r] + b;
    forall i, j | 0 <= i < j < |ms| ensures ms[i] != ms[j] {
      if i < |a| { assert ms[i] == ls[i]; } else if i > |a| { assert ms[i] == ls[i-1]; }
      if j < |a| { assert ms[j] == ls[j]; } else if j > |a| { assert ms[j] == ls[j-1]; }
    }
  }

  lemma DistinctRemove(a: seq<PageId>, r: PageId, b: seq<PageId>)
    requires Distinct(a + [r] + b)
    ensures Distinct(a + b)
  {
    var ls, ms := a + [r] + b, a + b;
    forall i, j | 0 <= i < j < |ms| ensures ms[i] != ms[j] {
      assert ms[i] == ls[if i < |a| then i else i + 1] && ms[j] == ls[if j < |a| then j else j + 1];
    }
  }

  predicate SameLinks(p: map<PageId, Page>, q: map<PageId, Page>, ls: seq<PageId>) {
    forall x :: x in ls ==>
      x in p && x in q && p[x].LeafPage? && q[x].LeafPage? && p[x].left == q[x].left && p[x].right == q[x].right
  }

  /** Leaf r is threaded in right after leaf x. */
  lemma {:induction false} LinkSplit(p: map<PageId, Page>, q: map<PageId, Page>, pre: seq<PageId>, x: PageId,
                                     r: PageId, post: seq<PageId>)
    requires Linked(p, pre + [x] + post) && r !in pre + [x] + post
    requires SameLinks(p, q, pre)
    requires LeafWith(q, x, Last(0, pre), r) && LeafWith(q, r, x, First(post, 0))
    requires post != [] ==> SameLinks(p, q, post[1..]) && LeafWith(q, post[0], r, First(post[1..], 0))
    ensures Linked(q, pre + [x, r] + post)
  {
    ChainSplice(p, 0, pre + [x], post, 0);
    ChainSplice(p, 0, pre, [x], First(post, 0));
    ChainFrame(p, q, 0, pre, x);
    if post != [] { ChainFrame(p, q, post[0], post[1..], 0); }
    assert Chain(q, Last(0, pre), [x, r], First(post, 0)) by { assert [x, r][1..] == [r]; assert [r][1..] == []; }
    ChainSplice(q, 0, pre, [x, r], First(post, 0));
    ChainSplice(q, 0, pre + [x, r], post, 0);
    DistinctInsert(pre + [x], r, post);
    assert pre + [x] + [r] + post == pre + [x, r] + post;
  }

  /** Leaf r, the right neighbour of x, is unthreaded. */
  lemma {:induction false} LinkMerge(p: map<PageId, Page>, q: map<PageId, Page>, pre: seq<PageId>, x: PageId,
                                     r: PageId, post: seq<PageId>)
    requires Linked(p, pre + [x, r] + post)
    requires SameLinks(p, q, pre)
    requires LeafWith(q, x, Last(0, pre), First(post, 0))
    requires post != [] ==> SameLinks(p, q, post[1..]) && LeafWith(q, post[0], x, First(post[1..], 0))
    ensures Linked(q, pre + [x] + post)
  {
    ChainSplice(p, 0, pre + [x, r], post, 0);
    ChainSplice(p, 0, pre, [x, r], First(post, 0));
    ChainFrame(p, q, 0, pre, x);
    if post != [] { ChainFrame(p, q, post[0], post[1..], 0); }
    assert Chain(q, Last(0, pre), [x], First(post, 0)) by { assert [x][1..] == []; }
    ChainSplice(q, 0, pre, [x], First(post, 0));
    ChainSplice(q, 0, pre + [x], post, 0);
    assert pre + [x] + [r] + post == pre + [x, r] + post;
    DistinctRemove(pre + [x], r, post);
  }

  /** Where a leaf of the chain points. */
  lemma {:induction false} LinksAt(p: map<PageId, Page>, pre: seq<PageId>, x: PageId, post: seq<PageId>)
    requires Linked(p, pre + [x] + post)
    ensures LeafWith(p, x, Last(0, pre), First(post, 0))
    ensures post != [] ==> LeafWith(p, post[0], x, First(post[1..], 0))
    ensures x !in pre && x !in post && (forall y :: y in pre ==> y !in post)
  {
    ChainSplice(p, 0, pre + [x], post, 0);
    ChainSplice(p, 0, pre, [x], First(post, 0));
    assert [x][1..] == [];
    var ls := pre + [x] + post;
    assert ls[|pre|] == x;
    assert forall i :: 0 <= i < |pre| ==> ls[i] == pre[i];
    assert forall i :: 0 <= i < |post| ==> ls[|pre| + 1 + i] == post[i];
  }
}
