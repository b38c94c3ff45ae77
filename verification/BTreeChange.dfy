/**
 * What insertion and deletion make of a tree, as functions of its picture.
 *
 * Every store of an internal page can fail, because a separator that is
 * inserted, moved or refreshed may not fit. `InsertOf` and `RemoveOf` say when,
 * and `RemoveOf` also says which tree a successful deletion leaves.
 */
module BTreeChange {
  import opened Bytes
  import opened BTreeShape
  import opened BTreeSize
  import opened BTreeBalance

  /** The child whose interval holds key. */
  function ChildAt(keys: seq<Key>, key: Key): (i: nat)
    ensures i <= |keys|
  { if keys == [] || Less(key, keys[0]) then 0 else 1 + ChildAt(keys[1..], key) }

  lemma {:induction false} ChildAtIs(keys: seq<Key>, key: Key, i: nat)
    requires i <= |keys| && (forall j :: 0 <= j < i ==> !Less(key, keys[j])) && (i < |keys| ==> Less(key, keys[i]))
    ensures ChildAt(keys, key) == i
  {
    if i > 0 { ChildAtIs(keys[1..], key, i - 1); }
  }

  /** In sorted separators, the ones up to the child are at most key and the others above it. */
  lemma {:induction false} ChildAtSplits(keys: seq<Key>, key: Key, lo: Bound, hi: Bound)
    requires SortedKeys(keys) && InRange(key, lo, hi)
    ensures var i := ChildAt(keys, key); InRange(key, LoAt(keys, lo, i), HiAt(keys, hi, i))
  {
    if keys != [] && !Less(key, keys[0]) { ChildAtSplits(keys[1..], key, At(keys[0]), hi); }
  }

  // ---- insertion ----------------------------------------------------------

  /** A page took the key, or split at sep, or a half of it does not fit. */
  datatype Insertion = Stays | Splits(sep: Key) | NoRoom

  /** Where the loop of splitLeafCells stops. */
  function CutFrom(ps: PageSize, cells: seq<Cell>, i: nat, used: nat, half: nat): (c: nat)
    requires i < |cells|
    ensures i <= c < |cells|
    decreases |cells| - i
  {
    var next := CellSize(ps, cells[i]) + 2;
    if i + 1 == |cells| || (i > 0 && used + next > half) then i
    else if used + next >= half then i + 1
    else CutFrom(ps, cells, i + 1, used + next, half)
  }

  function LeafCut(ps: PageSize, cells: seq<Cell>): (c: nat)
    requires |cells| >= 2
    ensures 0 < c < |cells|
  { CutFrom(ps, cells, 0, 0, CellsSize(ps, cells) / 2) }

  function LeafInsertOf(ps: PageSize, cells: seq<Cell>): Insertion {
    if LeafFits(ps, cells) then Stays
    else if |cells| < 2 then NoRoom
    else
      var c := LeafCut(ps, cells);
      if LeafFits(ps, cells[..c]) && LeafFits(ps, cells[c..]) then Splits(cells[c].key) else NoRoom
  }

  function InnerInsertOf(ps: PageSize, keys: seq<Key>): Insertion
    requires keys != []
  {
    if InternalFits(ps, keys) then Stays
    else
      var mid := |keys| / 2;
      if InternalFits(ps, keys[..mid]) && InternalFits(ps, keys[mid+1..]) then Splits(keys[mid]) else NoRoom
  }

  ghost function InsertOf(ps: PageSize, t: Node, key: Key, val: seq<Byte>): Insertion
    decreases t
  {
    match t
    case Leaf(_, cells) => LeafInsertOf(ps, SeqPut(cells, key, val))
    case Inner(_, keys, kids) =>
      var i := ChildAt(keys, key);
      if i >= |kids| then NoRoom
      else
        var below := InsertOf(ps, kids[i], key, val);
        if below.Splits? then InnerInsertOf(ps, keys[..i] + [below.sep] + keys[i..]) else below
  }

  // ---- pairs of siblings --------------------------------------------------

  /** pageUnderfull. */
  predicate Sparse(ps: PageSize, t: Node) {
    match t
    case Leaf(_, cells) => LeafUsed(ps, cells) < Payload(ps) / 2
    case Inner(_, keys, _) => InternalUsed(keys) < Payload(ps) / 2
  }

  predicate AllFullBut(kids: seq<Node>, x: nat) { forall i :: 0 <= i < |kids| && i != x ==> Full(kids[i]) }

  /** Children l and l + 1 of an internal page, both leaves or both internal. */
  predicate Pair(n: Node, l: nat) {
    && n.Inner? && l < |n.keys| && |n.kids| == |n.keys| + 1
    && match (n.kids[l], n.kids[l+1])
       case (Leaf(_, _), Leaf(_, _)) => true
       case (Inner(_, k, c), Inner(_, k', c')) => |c| == |k| + 1 && |c'| == |k'| + 1
       case (_, _) => false
  }

  /** Merging children l and l + 1 would overflow one page. */
  predicate TooBig(ps: PageSize, n: Node, l: nat) {
    Pair(n, l) ==>
      match (n.kids[l], n.kids[l+1])
      case (Leaf(_, c), Leaf(_, d)) => !LeafFits(ps, c + d)
      case (Inner(_, k, _), Inner(_, k', _)) => !InternalFits(ps, k + [n.keys[l]] + k')
  }

  /** The page that a merge makes of children l and l + 1. */
  ghost function MergedKid(n: Node, l: nat): Node
    requires Pair(n, l)
  {
    if n.kids[l].Leaf? then Leaf(n.kids[l].id, n.kids[l].cells + n.kids[l+1].cells) else MergedInner(n, l)
  }

  ghost function MergedAt(n: Node, l: nat): Node
    requires Pair(n, l)
  { Inner(n.id, SpliceKeys(n, l, []), SpliceKids(n, l, [MergedKid(n, l)])) }

  /** Cells of a leaf, separators of an internal page. */
  function Items(t: Node): nat { if t.Leaf? then |t.cells| else |t.keys| }

  /** The guard of borrowLeaf: the lender keeps a cell and the borrower has room for one more. */
  predicate CanLendCells(ps: PageSize, c: seq<Cell>, d: seq<Cell>, fromRight: bool) {
    if fromRight then |d| >= 2 && LeafFits(ps, c + [d[0]]) else |c| >= 2 && LeafFits(ps, [c[|c|-1]] + d)
  }

  /** The guard of borrowInternal: the lender keeps a separator and k fits the borrower. */
  predicate CanLendKeys(ps: PageSize, a: seq<Key>, k: Key, b: seq<Key>, fromRight: bool) {
    if fromRight then |b| >= 2 && InternalFits(ps, a + [k]) else |a| >= 2 && InternalFits(ps, [k] + b)
  }

  predicate CanLend(ps: PageSize, n: Node, l: nat, fromRight: bool) {
    && Pair(n, l)
    && match (n.kids[l], n.kids[l+1])
       case (Leaf(_, c), Leaf(_, d)) => CanLendCells(ps, c, d, fromRight)
       case (Inner(_, a, _), Inner(_, b, _)) => CanLendKeys(ps, a, n.keys[l], b, fromRight)
  }

  /** How many items the left child has after the move. */
  function LeftItems(n: Node, l: nat, fromRight: bool): nat
    requires n.Inner? && l < |n.kids| && (fromRight || Items(n.kids[l]) > 0)
  { if fromRight then Items(n.kids[l]) + 1 else Items(n.kids[l]) - 1 }

  /** The lender has an item to spare. */
  predicate Spare(n: Node, l: nat, fromRight: bool) {
    Pair(n, l) && Items(n.kids[if fromRight then l + 1 else l]) >= 2
  }

  /** Children l and l + 1 after one item crossed the separator between them. */
  ghost function LentKids(n: Node, l: nat, fromRight: bool): (ns: seq<Node>)
    requires Spare(n, l, fromRight)
    ensures |ns| == 2
  {
    var a, b, m := n.kids[l], n.kids[l+1], LeftItems(n, l, fromRight);
    if a.Leaf? then var c := a.cells + b.cells; [Leaf(a.id, c[..m]), Leaf(b.id, c[m..])] else Resplit(n, l, m)
  }

  /** The separator between them then. */
  ghost function LentKey(n: Node, l: nat, fromRight: bool): Key
    requires Spare(n, l, fromRight)
  {
    var a, b, m := n.kids[l], n.kids[l+1], LeftItems(n, l, fromRight);
    if a.Leaf? then (a.cells + b.cells)[m].key else MergedInner(n, l).keys[m]
  }

  /** The parent after one item crossed the separator l. */
  ghost function Lent(n: Node, l: nat, fromRight: bool): Node
    requires Spare(n, l, fromRight)
  { Inner(n.id, SpliceKeys(n, l, [LentKey(n, l, fromRight)]), SpliceKids(n, l, LentKids(n, l, fromRight))) }

  /** One item crossed the separator l, and everything else stayed. */
  ghost predicate Borrowed(n: Node, n': Node, l: nat, fromRight: bool) {
    && n.Inner? && n'.Inner? && n'.id == n.id && l + 1 < |n.kids| == |n'.kids| && |n'.keys| == |n.keys|
    && (forall i :: 0 <= i < |n.kids| && i != l && i != l + 1 ==> n'.kids[i] == n.kids[i])
    && n'.kids[l].Leaf? == n'.kids[l+1].Leaf? == n.kids[l].Leaf? == n.kids[l+1].Leaf?
    && (if fromRight
        then Items(n'.kids[l]) == Items(n.kids[l]) + 1 && Items(n'.kids[l+1]) == Items(n.kids[l+1]) - 1
        else Items(n'.kids[l+1]) == Items(n.kids[l+1]) + 1 && Items(n'.kids[l]) == Items(n.kids[l]) - 1)
    && Full(n'.kids[l]) && Full(n'.kids[l+1])
  }

  lemma {:induction false} LentBorrowed(n: Node, l: nat, fromRight: bool)
    requires Spare(n, l, fromRight)
    ensures Borrowed(n, Lent(n, l, fromRight), l, fromRight)
  {}

  predicate Starved(t: Node) { t.Inner? && t.keys == [] }
  predicate Generous(t: Node) { t.Inner? && |t.keys| >= 2 }

  /** An internal page without separators next to siblings that can lend one. */
  predicate Rescuable(n: Node, idx: nat)
    requires n.Inner? && idx < |n.kids|
  {
    && Starved(n.kids[idx]) && |n.kids| >= 2
    && (idx > 0 ==> Generous(n.kids[idx-1]))
    && (idx + 1 < |n.kids| ==> Generous(n.kids[idx+1]))
  }

  // ---- deletion -----------------------------------------------------------

  /** One step on a parent page: nothing to do, a page that overflows, an empty
      leaf where a key is looked for, or the new parent. */
  datatype Outcome = Stuck | Overflow | Broken | Wrote(node: Node)

  ghost function BorrowOf(ps: PageSize, n: Node, l: nat, fromRight: bool): (o: Outcome)
    ensures !o.Broken? && (o.Wrote? ==> Borrowed(n, o.node, l, fromRight))
  {
    if !CanLend(ps, n, l, fromRight) then Stuck
    else
      LentBorrowed(n, l, fromRight);
      if InternalFits(ps, Lent(n, l, fromRight).keys) then Wrote(Lent(n, l, fromRight)) else Overflow
  }

  ghost function Neighbours(n: Node, idx: nat): nat
    requires n.Inner? && idx < |n.kids|
  {
    (if idx > 0 then Items(n.kids[idx-1]) else 0) + (if idx + 1 < |n.kids| then Items(n.kids[idx+1]) else 0)
  }

  /** One round of the loop of rebalance. */
  ghost function RoundOf(ps: PageSize, n: Node, idx: nat): (o: Outcome)
    requires n.Inner? && idx < |n.kids|
    ensures !o.Broken?
    ensures o.Wrote? ==> o.node.Inner? && |o.node.kids| == |n.kids| && |o.node.keys| == |n.keys| && o.node.id == n.id
    ensures o.Wrote? ==> Neighbours(o.node, idx) < Neighbours(n, idx)
  {
    var a := if idx > 0 then BorrowOf(ps, n, idx - 1, false) else Stuck;
    if a.Stuck? && idx + 1 < |n.kids| then BorrowOf(ps, n, idx, true) else a
  }

  /** The loop of rebalance: borrow until the page is half full or nothing can move. */
  ghost function LoopOf(ps: PageSize, n: Node, idx: nat): (o: Outcome)
    requires n.Inner? && idx < |n.kids|
    ensures o.Wrote? || o.Overflow?
    ensures o.Wrote? ==> o.node.Inner? && |o.node.kids| == |n.kids| && |o.node.keys| == |n.keys| && o.node.id == n.id
    decreases Neighbours(n, idx)
  {
    if !Sparse(ps, n.kids[idx]) then Wrote(n)
    else
      var o := RoundOf(ps, n, idx);
      if o.Stuck? then Wrote(n) else if o.Overflow? then o else LoopOf(ps, o.node, idx)
  }

  predicate MergesLeft(ps: PageSize, n: Node, idx: nat) { idx > 0 && !TooBig(ps, n, idx - 1) }
  predicate MergesRight(ps: PageSize, n: Node, idx: nat) { !MergesLeft(ps, n, idx) && !TooBig(ps, n, idx) }

  ghost function RebalanceOf(ps: PageSize, n: Node, idx: nat): (o: Outcome)
    requires n.Inner? && idx < |n.kids|
    ensures (o.Wrote? && o.node.Inner?) || o.Overflow?
  {
    if MergesLeft(ps, n, idx) then Wrote(MergedAt(n, idx - 1))
    else if MergesRight(ps, n, idx) then Wrote(MergedAt(n, idx))
    else LoopOf(ps, n, idx)
  }

  /** The position of the rebalanced child. */
  function Survivor(ps: PageSize, n: Node, idx: nat): nat
    requires n.Inner? && idx < |n.kids|
  {
    if Sparse(ps, n.kids[idx]) && MergesLeft(ps, n, idx) then idx - 1 else idx
  }

  /** syncSeparator: the separator left of child c becomes the smallest key below it. */
  ghost function SyncOf(ps: PageSize, n: Node, c: nat): (o: Outcome)
    requires n.Inner? && 0 < c < |n.kids|
    ensures !o.Stuck?
  {
    if c > |n.keys| || Flat(n.kids[c]) == [] then Broken
    else
      var keys := n.keys[c-1 := Flat(n.kids[c])[0].key];
      if InternalFits(ps, keys) then Wrote(Inner(n.id, keys, n.kids)) else Overflow
  }

  ghost function SettleOf(ps: PageSize, n: Node, c: nat, isRoot: bool): (o: Outcome)
    requires n.Inner?
    ensures !o.Stuck?
  {
    if isRoot && n.keys == [] && n.kids != [] then Wrote(n.kids[0])
    else if 0 < c < |n.kids| then SyncOf(ps, n, c)
    else Wrote(n)
  }

  ghost function RepairOf(ps: PageSize, n: Node, idx: nat, isRoot: bool): (o: Outcome)
    requires n.Inner? && idx < |n.kids|
    ensures !o.Stuck?
  {
    var o := if Sparse(ps, n.kids[idx]) then RebalanceOf(ps, n, idx) else Wrote(n);
    if o.Overflow? then o else SettleOf(ps, o.node, Survivor(ps, n, idx), isRoot)
  }

  /** The key is absent, the tree shrank to a node or to nothing, a page would
      overflow, or there is an empty leaf. */
  datatype Removal = Absent | Removed(node: Node) | Emptied | Unfit | Damaged

  ghost function WithKid(t: Node, i: nat, c: Node): Node
    requires t.Inner? && i < |t.kids|
  { Inner(t.id, t.keys, t.kids[..i] + [c] + t.kids[i+1..]) }

  ghost function RemoveOf(ps: PageSize, t: Node, key: Key, isRoot: bool): (r: Removal)
    ensures r.Emptied? ==> isRoot
    decreases t
  {
    match t
    case Leaf(id, cells) =>
      var rest := SeqDel(cells, key);
      if rest == cells then Absent else if isRoot && rest == [] then Emptied else Removed(Leaf(id, rest))
    case Inner(_, keys, kids) =>
      var i := ChildAt(keys, key);
      if i >= |kids| then Absent
      else
        var below := RemoveOf(ps, kids[i], key, false);
        if !below.Removed? then below
        else
          var o := RepairOf(ps, WithKid(t, i, below.node), i, isRoot);
          if o.Overflow? then Unfit else if o.Broken? then Damaged else Removed(o.node)
  }
}
