/**
 * Byte accounting of slotted pages, and the key bound under which both halves
 * of every page split fit again.
 */
module BTreeSize {
  import opened Bytes
  import opened BTreeShape

  const MIN_PAGE_SIZE := 4096
  const MAX_PAGE_SIZE := 65536
  const PAGE_OVERHEAD := 28
  const LEAF_HEADER := 20
  const INTERNAL_HEADER := 12
  const LEAF_CELL_HEADER := 8
  const INTERNAL_CELL_HEADER := 12
  const MAX_TREE_HEIGHT := 64

  type PageSize = n: nat | MIN_PAGE_SIZE <= n <= MAX_PAGE_SIZE witness MIN_PAGE_SIZE

  function Payload(ps: PageSize): nat { ps - PAGE_OVERHEAD }

  /** A value longer than a quarter of the page is replaced by an 8-byte overflow pointer. */
  function CellSize(ps: PageSize, c: Cell): nat {
    LEAF_CELL_HEADER + |c.key| + if |c.val| > ps / 4 then 8 else |c.val|
  }

  function CellsSize(ps: PageSize, cells: seq<Cell>): nat {
    if cells == [] then 0 else CellSize(ps, cells[0]) + 2 + CellsSize(ps, cells[1..])
  }

  function LeafUsed(ps: PageSize, cells: seq<Cell>): nat { LEAF_HEADER + CellsSize(ps, cells) }

  predicate LeafFits(ps: PageSize, cells: seq<Cell>) { LeafUsed(ps, cells) <= Payload(ps) }

  function KeysSize(keys: seq<Key>): nat {
    if keys == [] then 0 else INTERNAL_CELL_HEADER + |keys[0]| + 2 + KeysSize(keys[1..])
  }

  function InternalUsed(keys: seq<Key>): nat { INTERNAL_HEADER + KeysSize(keys) }

  predicate InternalFits(ps: PageSize, keys: seq<Key>) { InternalUsed(keys) <= Payload(ps) }

  /** checkKey. */
  predicate KeyAdmitted(ps: PageSize, key: Key) {
    |key| <= Payload(ps) - LEAF_HEADER - LEAF_CELL_HEADER - 8 - 2
  }

  /** The guard in makeCell. */
  predicate CellAdmitted(ps: PageSize, c: Cell) { CellSize(ps, c) + LEAF_HEADER + 2 <= Payload(ps) }

  /** checkKey admits a key if and only if a leaf can hold it with some value. */
  lemma AdmittedFits(ps: PageSize, key: Key)
    ensures KeyAdmitted(ps, key) <==> exists val: seq<Byte> :: |val| > ps / 4 && LeafFits(ps, [Cell(key, val)])
  {
    var long := seq(ps / 4 + 1, i => 0);
    assert forall c: Cell :: CellsSize(ps, [c]) == CellSize(ps, c) + 2;
    assert LeafFits(ps, [Cell(key, long)]) <==> KeyAdmitted(ps, key);
  }

  /** And makeCell a cell if and only if a leaf can hold it alone. */
  lemma CellFits(ps: PageSize, c: Cell)
    ensures CellAdmitted(ps, c) <==> LeafFits(ps, [c])
  {
    assert CellsSize(ps, [c]) == CellSize(ps, c) + 2;
  }

  /** The bound that keeps every split page within its size: 14 bytes is the
      smallest separator with its slot, so m * m <= 14 * room. */
  predicate ShortKey(ps: PageSize, key: Key) {
    var m := INTERNAL_CELL_HEADER + 2 + |key|;
    m * m <= 14 * (Payload(ps) - INTERNAL_HEADER)
  }

  /** Any two such keys fit one internal page, which therefore never splits into
      a page without separators. */
  predicate HalfKey(ps: PageSize, key: Key) {
    2 * (INTERNAL_CELL_HEADER + 2 + |key|) <= Payload(ps) - INTERNAL_HEADER
  }

  predicate HalfKeys(ps: PageSize, keys: seq<Key>) { forall i :: 0 <= i < |keys| ==> HalfKey(ps, keys[i]) }

  lemma HalfKeyMeans(ps: PageSize, key: Key, val: seq<Byte>)
    requires HalfKey(ps, key)
    ensures KeyAdmitted(ps, key) && CellAdmitted(ps, Cell(key, val))
  {}

  predicate ShortKeys(ps: PageSize, keys: seq<Key>) { forall i :: 0 <= i < |keys| ==> ShortKey(ps, keys[i]) }

  lemma ShortKeyMeans(ps: PageSize, key: Key)
    requires ShortKey(ps, key)
    ensures HalfKey(ps, key)
    ensures |key| + 10 + ps / 4 <= (Payload(ps) - LEAF_HEADER) / 3
    ensures KeyAdmitted(ps, key)
  {
    SquareRootBound(14 + |key|, ps - 40);
    Linear(|key|, ps);
  }

  lemma Linear(k: nat, ps: PageSize)
    requires 13 * (14 + k) <= ps - 40
    ensures 2 * (14 + k) <= ps - 40 && k + 10 + ps / 4 <= (ps - 48) / 3 && k <= ps - 66
  {}

  lemma SquareRootBound(m: nat, p: nat)
    requires m * m <= 14 * p && p >= 4056
    ensures 13 * m <= p
  {
    if p < 13 * m {
      Square(p, 13 * m);
      Scale(p, 4056);
    }
  }

  lemma Square(a: nat, b: nat)
    requires a <= b
    ensures a * a <= b * b
  {
    Product(a, b, a);
    Product(a, b, b);
  }

  lemma Product(a: nat, b: nat, c: nat)
    requires a <= b
    ensures a * c <= b * c
  {}

  lemma Scale(p: nat, k: nat)
    requires k <= p
    ensures k * p <= p * p
  { Product(k, p, p); }

  // ---- sums ---------------------------------------------------------------

  lemma {:induction false} CellsSizeSplice(ps: PageSize, a: seq<Cell>, b: seq<Cell>)
    ensures CellsSize(ps, a + b) == CellsSize(ps, a) + CellsSize(ps, b)
  {
    if a == [] { assert a + b == b; }
    else { assert (a + b)[1..] == a[1..] + b; CellsSizeSplice(ps, a[1..], b); }
  }

  lemma {:induction false} KeysSizeSplice(a: seq<Key>, b: seq<Key>)
    ensures KeysSize(a + b) == KeysSize(a) + KeysSize(b)
  {
    if a == [] { assert a + b == b; }
    else { assert (a + b)[1..] == a[1..] + b; KeysSizeSplice(a[1..], b); }
  }

  lemma KeysSizeOne(k: Key)
    ensures KeysSize([k]) == 14 + |k|
  { assert [k][1..] == []; }

  lemma CellsSizeOne(ps: PageSize, c: Cell)
    ensures CellsSize(ps, [c]) == CellSize(ps, c) + 2
  { assert [c][1..] == []; }

  lemma KeysSizeAround(keys: seq<Key>, i: nat)
    requires i < |keys|
    ensures KeysSize(keys) == KeysSize(keys[..i]) + 14 + |keys[i]| + KeysSize(keys[i+1..])
  {
    assert keys == keys[..i] + ([keys[i]] + keys[i+1..]);
    KeysSizeSplice(keys[..i], [keys[i]] + keys[i+1..]);
    KeysSizeSplice([keys[i]], keys[i+1..]);
    KeysSizeOne(keys[i]);
  }

  lemma CellsSizeAround(ps: PageSize, cells: seq<Cell>, i: nat)
    requires i < |cells|
    ensures CellsSize(ps, cells) == CellsSize(ps, cells[..i]) + CellSize(ps, cells[i]) + 2 + CellsSize(ps, cells[i+1..])
  {
    assert cells == cells[..i] + ([cells[i]] + cells[i+1..]);
    CellsSizeSplice(ps, cells[..i], [cells[i]] + cells[i+1..]);
    CellsSizeSplice(ps, [cells[i]], cells[i+1..]);
    CellsSizeOne(ps, cells[i]);
  }

  /** n separators take at least 14 n bytes and at most m n. */
  lemma {:induction false} KeysSizeBetween(keys: seq<Key>, m: nat)
    requires forall i :: 0 <= i < |keys| ==> 14 + |keys[i]| <= m
    ensures 14 * |keys| <= KeysSize(keys) <= m * |keys|
  {
    if keys != [] {
      KeysSizeBetween(keys[1..], m);
      assert m * |keys| == m + m * |keys[1..]|;
    }
  }

  /** The longest separator of a page, with its slot. */
  lemma {:induction false} LongestSlot(ps: PageSize, keys: seq<Key>) returns (m: nat)
    requires ShortKeys(ps, keys)
    ensures forall i :: 0 <= i < |keys| ==> 14 + |keys[i]| <= m
    ensures m * m <= 14 * (Payload(ps) - INTERNAL_HEADER)
  {
    m := 0;
    for i := 0 to |keys|
      invariant forall j :: 0 <= j < i ==> 14 + |keys[j]| <= m
      invariant m * m <= 14 * (Payload(ps) - INTERNAL_HEADER)
    {
      if m < 14 + |keys[i]| { m := 14 + |keys[i]|; }
    }
  }

  /** splitInternal splits by count. When one insertion made the page overflow
      and every key is short, the separators before and after the middle fit. */
  lemma {:induction false} InternalHalvesFit(ps: PageSize, keys: seq<Key>, i: nat)
    requires i < |keys| && InternalFits(ps, keys[..i] + keys[i+1..]) && ShortKeys(ps, keys)
    ensures var mid := |keys| / 2; InternalFits(ps, keys[..mid]) && InternalFits(ps, keys[mid+1..])
  {
    var mid, p := |keys| / 2, Payload(ps) - INTERNAL_HEADER;
    var m := LongestSlot(ps, keys);
    var l, r := keys[..mid], keys[mid+1..];
    KeysSizeAround(keys, mid);
    KeysSizeAround(keys, i);
    KeysSizeSplice(keys[..i], keys[i+1..]);
    KeysSizeBetween(l, m);
    KeysSizeBetween(r, m);
    HalfFits(p, m, KeysSize(l), mid, 14 + |keys[mid]| + KeysSize(r), |r| + 1);
    HalfFits(p, m, KeysSize(r), |r|, 14 + |keys[mid]| + KeysSize(l), mid + 1);
  }

  /** One side holds n slots, the other at least as many. */
  lemma HalfFits(p: nat, m: nat, side: nat, n: nat, other: nat, k: nat)
    requires side + other <= p + m && side <= m * n && 14 * k <= other && n <= k
    requires m * m <= 14 * p
    ensures side <= p
  {
    if side > p {
      assert other < m;
      assert m * n <= m * k by { Product(n, k, m); assert m * n == n * m && m * k == k * m; }
      assert 14 * (m * k) <= m * other by {
        Product(14 * k, other, m);
        assert (14 * k) * m == 14 * (m * k);
        assert other * m == m * other;
      }
      Product(other, m, m);
    }
  }

  // ---- what the size checks of the source do not exclude --------------------

  function LongKey(b: Byte): Key { [b] + seq(1299, _ => 0) }

  /** Eight separators of a 4 KiB page, the first four of them long. */
  function CrowdedKeys(): seq<Key> { [LongKey(0), LongKey(1), LongKey(2), LongKey(3)] + [[4], [5], [6], [7]] }

  /** checkKey admits these keys. Seven of them fit a page; adding the fourth
      makes it overflow, and the left half of the split does not fit either. */
  lemma {:induction false} LongKeysDefeatSplit()
    ensures var keys := CrowdedKeys();
      && SortedKeys(keys) && (forall i :: 0 <= i < |keys| ==> KeyAdmitted(4096, keys[i]))
      && InternalFits(4096, keys[..3] + keys[4..]) && !InternalFits(4096, keys[..|keys| / 2])
  {
    var keys := CrowdedKeys();
    var l, r: seq<Key> := [LongKey(0), LongKey(1), LongKey(2), LongKey(3)], [[4], [5], [6], [7]];
    KeysSizeBetween(l, 1314);
    EqualLengths(l, 1300);
    EqualLengths(r, 1);
    EqualLengths(l[..3], 1300);
    assert keys[..3] + keys[4..] == l[..3] + r && keys[..4] == l;
    KeysSizeSplice(l[..3], r);
    forall i, j | 0 <= i < j < |keys| ensures Less(keys[i], keys[j]) { assert keys[i][0] < keys[j][0]; }
  }

  lemma {:induction false} EqualLengths(keys: seq<Key>, n: nat)
    requires forall i :: 0 <= i < |keys| ==> |keys[i]| == n
    ensures KeysSize(keys) == (14 + n) * |keys|
  {
    if keys != [] {
      EqualLengths(keys[1..], n);
      assert (14 + n) * |keys| == (14 + n) + (14 + n) * |keys[1..]|;
    }
  }

  /** 253 two-byte separators, which nearly fill a 4 KiB page. */
  function PackedKeys(): seq<Key> { seq(253, i requires 0 <= i < 253 => [i, 0]) }

  /** A stored key right above separator 10. */
  function LateKey(): Key { [10, 0] + seq(18, _ => 0) }

  /** syncSeparator may raise separator 10 to this short key, and the page that
      fitted before overflows: keys of mixed length can make Delete fail. */
  lemma {:induction false} MixedLengthsDefeatSync()
    ensures var keys, k := PackedKeys(), LateKey();
      && SortedKeys(keys) && SortedKeys(keys[10 := k]) && ShortKeys(4096, keys) && ShortKey(4096, k)
      && InternalFits(4096, keys) && !InternalFits(4096, keys[10 := k])
  {
    hide KeysSize;
    var keys, k := PackedKeys(), LateKey();
    forall i | 0 <= i < 253 ensures ShortKey(4096, keys[i]) { assert |keys[i]| == 2; }
    PackedSizes(keys, k);
    FirstBytes(keys);
    FirstBytes(keys[10 := k]);
  }

  lemma {:induction false} PackedSizes(keys: seq<Key>, k: Key)
    requires |keys| == 253 && |k| == 20 && forall i :: 0 <= i < 253 ==> |keys[i]| == 2
    ensures InternalFits(4096, keys) && !InternalFits(4096, keys[10 := k])
  {
    EqualLengths(keys, 2);
    KeysSizeAround(keys, 10);
    KeysSizeAround(keys[10 := k], 10);
    assert keys[10 := k][..10] == keys[..10] && keys[10 := k][11..] == keys[11..];
  }

  lemma {:induction false} FirstBytes(keys: seq<Key>)
    requires forall i :: 0 <= i < |keys| ==> keys[i] != [] && keys[i][0] == i
    ensures SortedKeys(keys)
  {}
}
