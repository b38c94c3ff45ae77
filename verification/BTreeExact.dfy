/**
 * Exact separators. The tree's own checker wants every separator to be the
 * smallest key to its right. A deletion keeps that except in one situation:
 * the key was a separator, and the internal page to its right became sparse and
 * took the separator down before it was refreshed.
 */
module BTreeExact {
  import opened Bytes
  import opened BTreeShape
  import opened BTreeSize
  import opened BTreePages
  import opened BTreeBalance
  import opened BTreeStores
  import opened BTreeChange

  ghost predicate HeadIs(t: Node, k: Key) { Flat(t) != [] && Flat(t)[0].key == k }

  /** What verifyPage demands of separators. */
  ghost predicate Exact(t: Node)
    decreases t, 2
  { t.Inner? ==> ExactRun(t.keys, t.kids) }

  ghost predicate ExactRun(keys: seq<Key>, kids: seq<Node>)
    decreases kids, 1
  { |kids| == |keys| + 1 && AllExact(kids) && forall i :: 0 <= i < |keys| ==> HeadIs(kids[i+1], keys[i]) }

  ghost predicate AllExact(kids: seq<Node>)
    decreases kids, 0
  { forall i :: 0 <= i < |kids| ==> Exact(kids[i]) }

  /** Two runs of children around separator s are exact if both are and s is. */
  lemma {:induction false} ExactJoin(k1: seq<Key>, c1: seq<Node>, s: Key, k2: seq<Key>, c2: seq<Node>)
    requires |c1| == |k1| + 1 && |c2| == |k2| + 1
    ensures ExactRun(k1 + [s] + k2, c1 + c2) <==> ExactRun(k1, c1) && ExactRun(k2, c2) && HeadIs(c2[0], s)
  {
    hide HeadIs;
    var keys, kids := k1 + [s] + k2, c1 + c2;
    ExactAppend(c1, c2);
    if ExactRun(keys, kids) {
      forall i | 0 <= i < |k1| ensures HeadIs(c1[i+1], k1[i]) { assert keys[i] == k1[i] && kids[i+1] == c1[i+1]; }
      forall i | 0 <= i < |k2| ensures HeadIs(c2[i+1], k2[i]) {
        assert keys[|k1| + 1 + i] == k2[i] && kids[|c1| + (i+1)] == c2[i+1];
      }
      assert keys[|k1|] == s && kids[|k1| + 1] == c2[0];
    }
    if ExactRun(k1, c1) && ExactRun(k2, c2) && HeadIs(c2[0], s) {
      forall i | 0 <= i < |keys| ensures HeadIs(kids[i+1], keys[i]) {
        if i < |k1| { assert keys[i] == k1[i] && kids[i+1] == c1[i+1]; }
        else if i > |k1| { assert keys[i] == k2[i - |k1| - 1] && kids[i+1] == c2[i - |k1|]; }
      }
    }
  }

  lemma {:induction false} ExactAppend(a: seq<Node>, b: seq<Node>)
    ensures AllExact(a + b) <==> AllExact(a) && AllExact(b)
  {
    var c := a + b;
    if AllExact(c) {
      forall i | 0 <= i < |a| ensures Exact(a[i]) { assert c[i] == a[i]; }
      forall i | 0 <= i < |b| ensures Exact(b[i]) { assert c[|a| + i] == b[i]; }
    }
    if AllExact(a) && AllExact(b) {
      forall i | 0 <= i < |c| ensures Exact(c[i]) {
        if i < |a| { assert c[i] == a[i]; } else { assert c[i] == b[i - |a|]; }
      }
    }
  }

  // ---- trees without empty leaves -----------------------------------------

  ghost predicate NoEmpty(t: Node)
    decreases t
  {
    match t
    case Leaf(_, cells) => cells != []
    case Inner(_, _, kids) => kids != [] && forall i :: 0 <= i < |kids| ==> NoEmpty(kids[i])
  }

  ghost predicate AllNoEmpty(kids: seq<Node>) { forall i :: 0 <= i < |kids| ==> NoEmpty(kids[i]) }

  lemma {:induction false} ShapeNoEmpty(t: Node, h: nat, lo: Bound, hi: Bound)
    requires Shape(t, h, lo, hi) && Full(t)
    ensures NoEmpty(t)
    decreases t
  {
    if t.Inner? {
      forall i | 0 <= i < |t.kids| ensures NoEmpty(t.kids[i]) {
        ShapeNoEmpty(t.kids[i], h - 1, LoAt(t.keys, lo, i), HiAt(t.keys, hi, i));
      }
    }
  }

  /** The first key of a subtree is the first key of its first child. */
  lemma {:induction false} HeadBelow(t: Node, k: Key)
    requires NoEmpty(t)
    ensures Flat(t) != []
    ensures t.Inner? ==> (HeadIs(t, k) <==> HeadIs(t.kids[0], k))
    decreases t
  {
    if t.Inner? { HeadBelow(t.kids[0], k); }
  }

  lemma {:induction false} MergedNoEmpty(n: Node, l: nat)
    requires Pair(n, l) && (NoEmpty(n.kids[l]) || n.kids[l] == Leaf(n.kids[l].id, []))
    requires NoEmpty(n.kids[l+1]) || n.kids[l+1] == Leaf(n.kids[l+1].id, [])
    requires NoEmpty(n.kids[l]) || NoEmpty(n.kids[l+1])
    ensures NoEmpty(MergedKid(n, l))
  {}

  lemma {:induction false} LentNoEmpty(n: Node, l: nat, fromRight: bool)
    requires Spare(n, l, fromRight) && NoEmpty(n.kids[l]) && NoEmpty(n.kids[l+1])
    ensures AllNoEmpty(LentKids(n, l, fromRight))
  {}

  lemma {:induction false} SplicedNoEmpty(n: Node, l: nat, ns: seq<Node>)
    requires Pair(n, l) && AllNoEmpty(ns) && forall i :: 0 <= i < |n.kids| && i != l && i != l + 1 ==>
      NoEmpty(n.kids[i])
    ensures AllNoEmpty(SpliceKids(n, l, ns))
  {
    var kids := SpliceKids(n, l, ns);
    forall i | 0 <= i < |kids| ensures NoEmpty(kids[i]) {
      if i < l { assert kids[i] == n.kids[i]; }
      else if i < l + |ns| { assert kids[i] == ns[i - l]; }
      else { assert kids[i] == n.kids[i - |ns| + 2]; }
    }
  }

  // ---- one parent page ----------------------------------------------------

  /** Separators are exact, except perhaps the one left of child c. */
  ghost predicate HeadsBut(n: Node, c: nat) {
    && n.Inner? && |n.kids| == |n.keys| + 1
    && forall i :: 0 <= i < |n.keys| && i + 1 != c ==> HeadIs(n.kids[i+1], n.keys[i])
  }

  /** The children other than c are exact and have no empty leaf. */
  ghost predicate SidesExact(n: Node, c: nat)
    requires n.Inner?
  { forall i :: 0 <= i < |n.kids| && i != c ==> Exact(n.kids[i]) && NoEmpty(n.kids[i]) }

  /** Refreshing the separator left of child c repairs it. */
  lemma {:induction false} SettleExact(ps: PageSize, n: Node, c: nat, isRoot: bool)
    requires HeadsBut(n, c) && c < |n.kids| && SettleOf(ps, n, c, isRoot).Wrote?
    ensures Exact(SettleOf(ps, n, c, isRoot).node) <==> AllExact(n.kids)
  {
    var t := SettleOf(ps, n, c, isRoot).node;
    if isRoot && n.keys == [] {
      assert n.kids == [n.kids[0]];
    } else if c > 0 {
      forall i | 0 <= i < |t.keys| ensures HeadIs(t.kids[i+1], t.keys[i]) {
        if i + 1 != c { assert t.keys[i] == n.keys[i]; }
      }
    }
  }

  /** A merge keeps the separators around the pair. */
  lemma {:induction false} MergedHeads(n: Node, l: nat, idx: nat)
    requires HeadsBut(n, idx) && Pair(n, l) && (l == idx || l + 1 == idx)
    ensures HeadsBut(MergedAt(n, l), l)
  {
    hide HeadIs;
    var m := MergedAt(n, l);
    forall i | 0 <= i < |m.keys| && i + 1 != l ensures HeadIs(m.kids[i+1], m.keys[i]) {
      if i + 1 < l { assert m.kids[i+1] == n.kids[i+1] && m.keys[i] == n.keys[i]; }
      else { assert m.kids[i+1] == n.kids[i+2] && m.keys[i] == n.keys[i+1]; }
    }
  }

  lemma {:induction false} SplicedExact(n: Node, l: nat, ns: seq<Node>)
    requires Pair(n, l) && forall i :: 0 <= i < |n.kids| && i != l && i != l + 1 ==> Exact(n.kids[i])
    ensures AllExact(SpliceKids(n, l, ns)) <==> AllExact(ns)
  {
    hide Exact;
    var kids := SpliceKids(n, l, ns);
    if AllExact(ns) {
      forall i | 0 <= i < |kids| ensures Exact(kids[i]) {
        if i < l { assert kids[i] == n.kids[i]; }
        else if i < l + |ns| { assert kids[i] == ns[i - l]; }
        else { assert kids[i] == n.kids[i - |ns| + 2]; }
      }
    } else {
      var i :| 0 <= i < |ns| && !Exact(ns[i]);
      assert kids[l + i] == ns[i];
    }
  }

  /** A merged internal page is exact if both were and the separator pulled down is. */
  lemma {:induction false} MergedExact(n: Node, l: nat)
    requires Pair(n, l) && NoEmpty(n.kids[l+1])
    ensures Exact(MergedKid(n, l)) <==>
      Exact(n.kids[l]) && Exact(n.kids[l+1]) && (n.kids[l+1].Inner? ==> HeadIs(n.kids[l+1], n.keys[l]))
  {
    var a, b := n.kids[l], n.kids[l+1];
    if a.Inner? {
      ExactJoin(a.keys, a.kids, n.keys[l], b.keys, b.kids);
      HeadBelow(b, n.keys[l]);
    }
  }

  /** Two internal siblings of a pair, as one run, before and after a separator moved. */
  lemma {:induction false} ResplitExact(n: Node, l: nat, m: nat)
    requires Pair(n, l) && n.kids[l].Inner? && m < |MergedInner(n, l).keys|
    ensures var j := MergedInner(n, l);
      (ExactRun(j.keys, j.kids) <==> AllExact(Resplit(n, l, m)) && HeadIs(j.kids[m+1], j.keys[m]))
  {
    var j, ns := MergedInner(n, l), Resplit(n, l, m);
    assert j.keys == j.keys[..m] + [j.keys[m]] + j.keys[m+1..] && j.kids == j.kids[..m+1] + j.kids[m+1..];
    ExactJoin(j.keys[..m], j.kids[..m+1], j.keys[m], j.keys[m+1..], j.kids[m+1..]);
    assert AllExact(ns) <==> Exact(ns[0]) && Exact(ns[1]);
  }

  /** The lender on the left keeps its first key; the moved item is the new separator. */
  lemma {:induction false} LeftPair(n: Node, l: nat)
    requires Spare(n, l, false) && NoEmpty(n.kids[l]) && NoEmpty(n.kids[l+1]) && Exact(n.kids[l])
    ensures var ns := LentKids(n, l, false);
      && (forall k :: HeadIs(n.kids[l], k) ==> HeadIs(ns[0], k)) && HeadIs(ns[1], LentKey(n, l, false)) && Exact(ns[0])
      && (Exact(ns[1]) <==> Exact(n.kids[l+1]) && (n.kids[l+1].Inner? ==> HeadIs(n.kids[l+1], n.keys[l])))
  {
    var a, b, ns := n.kids[l], n.kids[l+1], LentKids(n, l, false);
    LentNoEmpty(n, l, false);
    if a.Inner? {
      var m, k := |a.keys| - 1, LentKey(n, l, false);
      ResplitExact(n, l, m);
      MergedExact(n, l);
      assert a.keys == a.keys[..m] + [a.keys[m]] + [] && a.kids == a.kids[..m+1] + [a.kids[m+1]];
      ExactJoin(a.keys[..m], a.kids[..m+1], a.keys[m], [], [a.kids[m+1]]);
      assert ns[0].keys == a.keys[..m] && ns[0].kids == a.kids[..m+1] && ns[1].kids[0] == a.kids[m+1] && k == a.keys[m];
      HeadBelow(ns[1], k);
      forall k | HeadIs(a, k) ensures HeadIs(ns[0], k) { HeadBelow(a, k); HeadBelow(ns[0], k); }
      assert AllExact(ns) <==> Exact(ns[0]) && Exact(ns[1]);
    }
  }

  /** The borrower on the left takes an exact separator; so is the new one. */
  lemma {:induction false} RightPair(n: Node, l: nat)
    requires Spare(n, l, true) && NoEmpty(n.kids[l]) && NoEmpty(n.kids[l+1])
    requires Exact(n.kids[l+1]) && HeadIs(n.kids[l+1], n.keys[l])
    ensures var ns := LentKids(n, l, true);
      && (forall k :: HeadIs(n.kids[l], k) ==> HeadIs(ns[0], k)) && HeadIs(ns[1], LentKey(n, l, true)) && Exact(ns[1])
      && (Exact(ns[0]) <==> Exact(n.kids[l]))
  {
    var a, b, ns := n.kids[l], n.kids[l+1], LentKids(n, l, true);
    LentNoEmpty(n, l, true);
    if a.Inner? {
      var m, k := |a.keys| + 1, LentKey(n, l, true);
      ResplitExact(n, l, m);
      MergedExact(n, l);
      assert b.keys == [] + [b.keys[0]] + b.keys[1..] && b.kids == [b.kids[0]] + b.kids[1..];
      ExactJoin([], [b.kids[0]], b.keys[0], b.keys[1..], b.kids[1..]);
      assert ns[1].keys == b.keys[1..] && ns[1].kids == b.kids[1..] && k == b.keys[0] && ns[0].kids[0] == a.kids[0];
      HeadBelow(ns[1], k);
      forall k | HeadIs(a, k) ensures HeadIs(ns[0], k) { HeadBelow(a, k); HeadBelow(ns[0], k); }
      assert AllExact(ns) <==> Exact(ns[0]) && Exact(ns[1]);
    }
  }

  /** What a borrow does to the parent as a whole. */
  lemma {:induction false} LentParent(n: Node, l: nat, fromRight: bool, idx: nat)
    requires Spare(n, l, fromRight) && idx == (if fromRight then l else l + 1)
    requires HeadsBut(n, idx) && SidesExact(n, idx) && NoEmpty(n.kids[idx])
    ensures var n', c := Lent(n, l, fromRight), n.kids[idx];
      && HeadsBut(n', idx) && SidesExact(n', idx) && NoEmpty(n'.kids[idx])
      && n'.kids[idx] == LentKids(n, l, fromRight)[idx - l]
      && (fromRight ==> (Exact(n'.kids[idx]) <==> Exact(c)))
      && (!fromRight ==> HeadIs(n'.kids[idx], n'.keys[idx-1]))
      && (!fromRight ==> (Exact(n'.kids[idx]) <==> Exact(c) && (c.Inner? ==> HeadIs(c, n.keys[idx-1]))))
  {
    var n', ns := Lent(n, l, fromRight), LentKids(n, l, fromRight);
    assert HeadIs(n.kids[l+1], n.keys[l]) || !fromRight;
    if fromRight { RightPair(n, l); } else { LeftPair(n, l); }
    LentNoEmpty(n, l, fromRight);
    hide LentKids, LentKey, Exact, NoEmpty, HeadIs;
    forall i | 0 <= i < |n'.kids| && i != l && i != l + 1 ensures n'.kids[i] == n.kids[i] {}
    assert n'.kids[l] == ns[0] && n'.kids[l+1] == ns[1] && n'.keys == n.keys[l := LentKey(n, l, fromRight)];
    forall i | 0 <= i < |n'.keys| && i + 1 != idx ensures HeadIs(n'.kids[i+1], n'.keys[i]) {
      if i + 1 == l { assert HeadIs(n.kids[l], n.keys[i]); }
    }
  }

  /** The page grew on the right, so it cannot take a separator from the left now. */
  lemma {:induction false} StillNoLeft(ps: PageSize, n: Node, idx: nat)
    requires Spare(n, idx, true) && n.kids[idx].Inner? && idx > 0 && !CanLend(ps, n, idx - 1, false)
    ensures !CanLend(ps, Lent(n, idx, true), idx - 1, false)
  {
    var n', c := Lent(n, idx, true), n.kids[idx];
    assert n'.kids[idx-1] == n.kids[idx-1] && n'.keys[idx-1] == n.keys[idx-1];
    assert n'.kids[idx].keys == c.keys + [n.keys[idx]];
    var k := n.keys[idx-1];
    assert [k] + (c.keys + [n.keys[idx]]) == ([k] + c.keys) + [n.keys[idx]];
    KeysSizeSplice([k] + c.keys, [n.keys[idx]]);
  }

  /** Child idx is a sparse internal page and borrows a stale separator. */
  ghost predicate BorrowsStale(ps: PageSize, n: Node, idx: nat)
    requires n.Inner? && idx < |n.kids|
  {
    && 0 < idx <= |n.keys| && n.kids[idx].Inner? && Sparse(ps, n.kids[idx])
    && !HeadIs(n.kids[idx], n.keys[idx-1]) && CanLend(ps, n, idx - 1, false)
  }

  lemma {:induction false} LoopExact(ps: PageSize, n: Node, idx: nat)
    requires n.Inner? && idx < |n.kids| && HeadsBut(n, idx) && SidesExact(n, idx) && NoEmpty(n.kids[idx])
    requires LoopOf(ps, n, idx).Wrote?
    ensures var n' := LoopOf(ps, n, idx).node;
      && HeadsBut(n', idx) && SidesExact(n', idx)
      && (Exact(n'.kids[idx]) <==> Exact(n.kids[idx]) && !BorrowsStale(ps, n, idx))
    decreases Neighbours(n, idx)
  {
    hide HeadIs, Exact, NoEmpty, Sparse, Lent;
    if Sparse(ps, n.kids[idx]) {
      if idx > 0 && CanLend(ps, n, idx - 1, false) {
        LentParent(n, idx - 1, false, idx);
        if InternalFits(ps, Lent(n, idx - 1, false).keys) {
          LoopExact(ps, Lent(n, idx - 1, false), idx);
        }
      } else if idx + 1 < |n.kids| && CanLend(ps, n, idx, true) {
        LentParent(n, idx, true, idx);
        if InternalFits(ps, Lent(n, idx, true).keys) {
          if idx > 0 && n.kids[idx].Inner? { StillNoLeft(ps, n, idx); }
          LoopExact(ps, Lent(n, idx, true), idx);
          LentBorrowed(n, idx, true);
        }
      }
    }
  }

  /** The page takes a stale separator down, by a merge to the left or by borrowing from it. */
  ghost predicate TakesDown(ps: PageSize, n: Node, idx: nat)
    requires n.Inner? && idx < |n.kids|
  {
    && idx > 0 && n.kids[idx].Inner? && Sparse(ps, n.kids[idx])
    && (MergesLeft(ps, n, idx) || (!MergesRight(ps, n, idx) && CanLend(ps, n, idx - 1, false)))
  }

  ghost predicate Rebalances(ps: PageSize, n: Node, idx: nat)
    requires n.Inner? && idx < |n.kids|
  { Sparse(ps, n.kids[idx]) && (MergesLeft(ps, n, idx) || MergesRight(ps, n, idx)) }

  lemma {:induction false} MergeExact(ps: PageSize, n: Node, l: nat, idx: nat)
    requires HeadsBut(n, idx) && SidesExact(n, idx) && Pair(n, l) && (l == idx || l + 1 == idx)
    requires NoEmpty(n.kids[idx]) || n.kids[idx] == Leaf(n.kids[idx].id, [])
    ensures var m := MergedAt(n, l);
      && HeadsBut(m, l)
      && (AllExact(m.kids) <==>
            Exact(n.kids[idx]) && (l + 1 == idx && n.kids[idx].Inner? ==> HeadIs(n.kids[idx], n.keys[l])))
  {
    MergedHeads(n, l, idx);
    SplicedExact(n, l, [MergedKid(n, l)]);
    assert AllExact([MergedKid(n, l)]) <==> Exact([MergedKid(n, l)][0]);
    if n.kids[l].Leaf? {
      assert Exact(MergedKid(n, l)) && Exact(n.kids[idx]);
    } else {
      MergedExact(n, l);
      assert l == idx ==> HeadIs(n.kids[l+1], n.keys[l]);
    }
  }

  /** The children stay exact exactly if child idx was and takes no stale separator. */
  lemma {:induction false} RepairExact(ps: PageSize, n: Node, idx: nat, isRoot: bool)
    requires n.Inner? && idx < |n.kids| && HeadsBut(n, idx) && SidesExact(n, idx)
    requires NoEmpty(n.kids[idx]) || (n.kids[idx] == Leaf(n.kids[idx].id, []) && Rebalances(ps, n, idx))
    requires RepairOf(ps, n, idx, isRoot).Wrote?
    ensures Exact(RepairOf(ps, n, idx, isRoot).node) <==>
      Exact(n.kids[idx]) && !(TakesDown(ps, n, idx) && !HeadIs(n.kids[idx], n.keys[idx-1]))
  {
    hide HeadIs, Exact, NoEmpty, Sparse, LoopOf, SettleOf, CanLend;
    var c := Survivor(ps, n, idx);
    if !Sparse(ps, n.kids[idx]) {
      SettleExact(ps, n, c, isRoot);
      SidesAll(n, idx);
    } else if MergesLeft(ps, n, idx) {
      MergeExact(ps, n, idx - 1, idx);
      SettleExact(ps, MergedAt(n, idx - 1), c, isRoot);
    } else if MergesRight(ps, n, idx) {
      MergeExact(ps, n, idx, idx);
      MergedRightHeads(n, idx);
      SettleExact(ps, MergedAt(n, idx), c, isRoot);
    } else {
      LoopExact(ps, n, idx);
      var n' := LoopOf(ps, n, idx).node;
      SidesAll(n', idx);
      SettleExact(ps, n', c, isRoot);
    }
  }

  lemma {:induction false} MergedRightHeads(n: Node, idx: nat)
    requires HeadsBut(n, idx) && Pair(n, idx)
    ensures HeadsBut(MergedAt(n, idx), idx) && idx < |MergedAt(n, idx).kids|
  {
    MergedHeads(n, idx, idx);
  }

  lemma {:induction false} SidesAll(n: Node, idx: nat)
    requires n.Inner? && idx < |n.kids| && SidesExact(n, idx)
    ensures AllExact(n.kids) <==> Exact(n.kids[idx])
  {}

  // ---- the pages after a deletion -----------------------------------------

  lemma {:induction false} LoopNoEmpty(ps: PageSize, n: Node, idx: nat)
    requires n.Inner? && idx < |n.kids| && AllNoEmpty(n.kids) && LoopOf(ps, n, idx).Wrote?
    ensures AllNoEmpty(LoopOf(ps, n, idx).node.kids)
    decreases Neighbours(n, idx)
  {
    hide NoEmpty, Sparse, CanLend;
    if Sparse(ps, n.kids[idx]) {
      if idx > 0 && CanLend(ps, n, idx - 1, false) {
        LentAllNoEmpty(ps, n, idx - 1, false);
        if InternalFits(ps, Lent(n, idx - 1, false).keys) { LoopNoEmpty(ps, Lent(n, idx - 1, false), idx); }
      } else if idx + 1 < |n.kids| && CanLend(ps, n, idx, true) {
        LentAllNoEmpty(ps, n, idx, true);
        if InternalFits(ps, Lent(n, idx, true).keys) { LoopNoEmpty(ps, Lent(n, idx, true), idx); }
      }
    }
  }

  lemma {:induction false} LentAllNoEmpty(ps: PageSize, n: Node, l: nat, fromRight: bool)
    requires n.Inner? && CanLend(ps, n, l, fromRight) && AllNoEmpty(n.kids)
    ensures Spare(n, l, fromRight) && AllNoEmpty(Lent(n, l, fromRight).kids)
  {
    LentNoEmpty(n, l, fromRight);
    SplicedNoEmpty(n, l, LentKids(n, l, fromRight));
  }

  /** A child may be left as an empty leaf if it is merged away. */
  ghost predicate Mendable(ps: PageSize, n: Node, idx: nat) {
    && n.Inner? && idx < |n.kids|
    && (NoEmpty(n.kids[idx]) || (n.kids[idx] == Leaf(n.kids[idx].id, []) && Rebalances(ps, n, idx)))
  }

  lemma {:induction false} RepairNoEmpty(ps: PageSize, n: Node, idx: nat, isRoot: bool)
    requires Mendable(ps, n, idx) && forall i :: 0 <= i < |n.kids| && i != idx ==> NoEmpty(n.kids[i])
    requires RepairOf(ps, n, idx, isRoot).Wrote?
    ensures NoEmpty(RepairOf(ps, n, idx, isRoot).node)
  {
    hide Sparse, LoopOf, TooBig;
    if Sparse(ps, n.kids[idx]) {
      if MergesLeft(ps, n, idx) {
        MergedAllNoEmpty(ps, n, idx - 1, idx);
      } else if MergesRight(ps, n, idx) {
        MergedAllNoEmpty(ps, n, idx, idx);
      } else {
        LoopNoEmpty(ps, n, idx);
      }
    }
  }

  lemma {:induction false} MergedAllNoEmpty(ps: PageSize, n: Node, l: nat, idx: nat)
    requires Mendable(ps, n, idx) && forall i :: 0 <= i < |n.kids| && i != idx ==> NoEmpty(n.kids[i])
    requires !TooBig(ps, n, l) && (l == idx || l + 1 == idx)
    ensures Pair(n, l) && AllNoEmpty(MergedAt(n, l).kids)
  {
    MergedNoEmpty(n, l);
    SplicedNoEmpty(n, l, [MergedKid(n, l)]);
  }

  /** An empty leaf next to a leaf that fits is merged with it. */
  lemma {:induction false} EmptyLeafMerges(ps: PageSize, n: Node, idx: nat)
    requires n.Inner? && |n.kids| == |n.keys| + 1 && idx < |n.kids| && n.keys != []
      && n.kids[idx] == Leaf(n.kids[idx].id, [])
    requires forall i :: 0 <= i < |n.kids| ==> n.kids[i].Leaf? && LeafFits(ps, n.kids[i].cells)
    ensures Rebalances(ps, n, idx)
  {
    var l := if idx > 0 then idx - 1 else 0;
    EmptyLeafFits(ps, n.kids[l].cells, n.kids[l+1].cells);
    assert !TooBig(ps, n, l);
  }

  /** Replacing two children by nodes with the same content keeps the content. */
  lemma {:induction false} SplicedFlat(n: Node, l: nat, ns: seq<Node>)
    requires Pair(n, l) && FlatAll(ns) == Flat(n.kids[l]) + Flat(n.kids[l+1])
    ensures FlatAll(SpliceKids(n, l, ns)) == FlatAll(n.kids)
  {
    var a, b, c := n.kids[..l], [n.kids[l], n.kids[l+1]], n.kids[l+2..];
    assert n.kids == a + b + c;
    Spliced(a, b, c);
    Spliced(a, ns, c);
    TwoFlat(n.kids[l], n.kids[l+1]);
  }

  lemma {:induction false} MergedFlat(n: Node, l: nat)
    requires Pair(n, l)
    ensures FlatAll(MergedAt(n, l).kids) == FlatAll(n.kids)
  {
    var j := MergedKid(n, l);
    One(j);
    if j.Inner? { Append(n.kids[l].kids, n.kids[l+1].kids); }
    SplicedFlat(n, l, [j]);
  }

  lemma {:induction false} LentPairFlat(n: Node, l: nat, fromRight: bool)
    requires Spare(n, l, fromRight)
    ensures FlatAll(LentKids(n, l, fromRight)) == Flat(n.kids[l]) + Flat(n.kids[l+1])
  {
    var a, b, ns := n.kids[l], n.kids[l+1], LentKids(n, l, fromRight);
    TwoFlat(ns[0], ns[1]);
    assert ns == [ns[0], ns[1]];
    if a.Inner? {
      assert ns[0].kids + ns[1].kids == a.kids + b.kids;
      hide LentKids, FlatAll;
      Append(a.kids, b.kids);
      Append(ns[0].kids, ns[1].kids);
    }
  }

  lemma {:induction false} LentFlat(n: Node, l: nat, fromRight: bool)
    requires Spare(n, l, fromRight)
    ensures FlatAll(Lent(n, l, fromRight).kids) == FlatAll(n.kids)
  {
    LentPairFlat(n, l, fromRight);
    SplicedFlat(n, l, LentKids(n, l, fromRight));
  }

  lemma {:induction false} LoopFlat(ps: PageSize, n: Node, idx: nat)
    requires n.Inner? && idx < |n.kids| && LoopOf(ps, n, idx).Wrote?
    ensures FlatAll(LoopOf(ps, n, idx).node.kids) == FlatAll(n.kids)
    decreases Neighbours(n, idx)
  {
    hide FlatAll, Sparse;
    if Sparse(ps, n.kids[idx]) {
      var o := RoundOf(ps, n, idx);
      if o.Wrote? {
        if idx > 0 && CanLend(ps, n, idx - 1, false) { LentFlat(n, idx - 1, false); } else { LentFlat(n, idx, true); }
        LoopFlat(ps, o.node, idx);
      }
    }
  }

  lemma {:induction false} RepairFlat(ps: PageSize, n: Node, idx: nat, isRoot: bool)
    requires n.Inner? && |n.kids| == |n.keys| + 1 && idx < |n.kids| && RepairOf(ps, n, idx, isRoot).Wrote?
    ensures Flat(RepairOf(ps, n, idx, isRoot).node) == FlatAll(n.kids)
  {
    hide Sparse, LoopOf;
    var m := n;
    if Sparse(ps, n.kids[idx]) {
      m := RebalanceOf(ps, n, idx).node;
      if MergesLeft(ps, n, idx) {
        MergedFlat(n, idx - 1);
      } else if MergesRight(ps, n, idx) {
        MergedFlat(n, idx);
      } else {
        LoopFlat(ps, n, idx);
      }
    }
    SettleFlat(ps, m, Survivor(ps, n, idx), isRoot);
  }

  lemma {:induction false} SettleFlat(ps: PageSize, m: Node, c: nat, isRoot: bool)
    requires m.Inner? && |m.kids| == |m.keys| + 1 && SettleOf(ps, m, c, isRoot).Wrote?
    ensures Flat(SettleOf(ps, m, c, isRoot).node) == FlatAll(m.kids)
  {
    if isRoot && m.keys == [] {
      assert m.kids == [m.kids[0]];
      One(m.kids[0]);
    }
  }

  // ---- the whole tree -----------------------------------------------------

  /** What is left of the content. */
  lemma {:induction false} RemoveFlat(ps: PageSize, t: Node, key: Key, isRoot: bool, h: nat, lo: Bound, hi: Bound)
    requires Shape(t, h, lo, hi) && InRange(key, lo, hi)
    ensures var r := RemoveOf(ps, t, key, isRoot);
      (r.Absent? <==> SeqDel(Flat(t), key) == Flat(t)) && (r.Removed? ==> Flat(r.node) == SeqDel(Flat(t), key))
    decreases t
  {
    hide RepairOf, SeqDel, InRange;
    if t.Inner? {
      var i := ChildAt(t.keys, key);
      ChildAtSplits(t.keys, key, lo, hi);
      RemoveFlat(ps, t.kids[i], key, false, h - 1, LoAt(t.keys, lo, i), HiAt(t.keys, hi, i));
      ChildAbsent(t, i, h, lo, hi, key);
      var below := RemoveOf(ps, t.kids[i], key, false);
      if below.Removed? {
        var n := WithKid(t, i, below.node);
        Spliced(t.kids[..i], [below.node], t.kids[i+1..]);
        One(below.node);
        if RepairOf(ps, n, i, isRoot).Wrote? { RepairFlat(ps, n, i, isRoot); }
      }
    }
  }

  /** A child that lost its last cell is an empty leaf for a moment. */
  lemma {:induction false} RemoveNoEmpty(ps: PageSize, p: Pages, t: Node, key: Key, isRoot: bool, h: nat, lo: Bound,
                                         hi: Bound)
    requires Reps(p, t) && PagesFit(ps, p) && Shape(t, h, lo, hi) && Full(t) && RemoveOf(ps, t, key, isRoot).Removed?
    ensures var t' := RemoveOf(ps, t, key, isRoot).node; NoEmpty(t') || (t.Leaf? && t' == Leaf(t.id, []))
    decreases t
  {
    hide RepairOf, PagesFit;
    if t.Inner? {
      var i := ChildAt(t.keys, key);
      RemoveNoEmpty(ps, p, t.kids[i], key, false, h - 1, LoAt(t.keys, lo, i), HiAt(t.keys, hi, i));
      ChildMendable(ps, p, t, i, RemoveOf(ps, t.kids[i], key, false).node, h, lo, hi);
      RepairNoEmpty(ps, WithKid(t, i, RemoveOf(ps, t.kids[i], key, false).node), i, isRoot);
    }
  }

  lemma {:induction false} ChildMendable(ps: PageSize, p: Pages, t: Node, i: nat, c: Node, h: nat, lo: Bound, hi: Bound)
    requires Reps(p, t) && PagesFit(ps, p) && Shape(t, h, lo, hi) && Full(t) && t.Inner? && i < |t.kids|
    requires NoEmpty(c) || (t.kids[i].Leaf? && c == Leaf(t.kids[i].id, []))
    ensures Mendable(ps, WithKid(t, i, c), i)
    ensures forall j :: 0 <= j < |t.kids| && j != i ==> NoEmpty(WithKid(t, i, c).kids[j])
  {
    var n := WithKid(t, i, c);
    assert forall j :: 0 <= j < |t.kids| && j != i ==> n.kids[j] == t.kids[j];
    ShapeNoEmpty(t, h, lo, hi);
    if !NoEmpty(c) {
      forall j | 0 <= j < |t.kids| ensures n.kids[j].Leaf? && LeafFits(ps, n.kids[j].cells) {
        assert Shape(t.kids[j], h - 1, LoAt(t.keys, lo, j), HiAt(t.keys, hi, j));
        assert Shape(t.kids[i], h - 1, LoAt(t.keys, lo, i), HiAt(t.keys, hi, i));
        assert PageFits(ps, p[t.kids[j].id]);
      }
      EmptyLeafMerges(ps, n, i);
    }
  }

  /** On the way down to key there is a page where key is the separator left of
      the way, and the page right of it takes that separator down. */
  ghost predicate PullsStale(ps: PageSize, t: Node, key: Key)
    decreases t
  {
    t.Inner? &&
      var i := ChildAt(t.keys, key);
      i < |t.kids| && RemoveOf(ps, t.kids[i], key, false).Removed? &&
        (|| PullsStale(ps, t.kids[i], key)
         || (i > 0 && t.keys[i-1] == key && TakesDown(ps, WithKid(t, i, RemoveOf(ps, t.kids[i], key, false).node), i)))
  }

  /** The separator left of a child is stale exactly if it is the deleted key. */
  lemma {:induction false} StaleSeparator(c: Node, c': Node, k: Key, key: Key)
    requires HeadIs(c, k) && Sorted(Flat(c)) && Flat(c') == SeqDel(Flat(c), key) != Flat(c) && Flat(c') != []
    ensures HeadIs(c', k) <==> k != key
  {
    Laws();
    if k == key { assert Less(Flat(c)[0].key, Flat(c)[1].key); }
  }

  /** A deletion keeps separators exact exactly if it pulls no stale one down. */
  lemma {:induction false} DeleteExact(ps: PageSize, p: Pages, t: Node, key: Key, isRoot: bool, h: nat, lo: Bound,
                                       hi: Bound)
    requires Reps(p, t) && PagesFit(ps, p) && Shape(t, h, lo, hi) && Full(t) && InRange(key, lo, hi) && Exact(t)
    requires RemoveOf(ps, t, key, isRoot).Removed?
    ensures Exact(RemoveOf(ps, t, key, isRoot).node) <==> !PullsStale(ps, t, key)
    decreases t
  {
    hide RepairOf, Reps, Shape, PagesFit, InRange, Sorted, SeqDel, TakesDown, Mendable, Flat;
    if t.Inner? {
      var i := ChildAt(t.keys, key);
      ChildFacts(ps, p, t, key, h, lo, hi);
      DeleteExact(ps, p, t.kids[i], key, false, h - 1, LoAt(t.keys, lo, i), HiAt(t.keys, hi, i));
      ChildExact(ps, t, i, RemoveOf(ps, t.kids[i], key, false).node, key, isRoot);
    }
  }

  lemma {:induction false} ChildFacts(ps: PageSize, p: Pages, t: Node, key: Key, h: nat, lo: Bound, hi: Bound)
    requires Reps(p, t) && PagesFit(ps, p) && Shape(t, h, lo, hi) && Full(t) && InRange(key, lo, hi) && Exact(t)
      && t.Inner?
    ensures h > 0 && |t.kids| == |t.keys| + 1
    ensures var i := ChildAt(t.keys, key);
      && Exact(t.kids[i]) && Reps(p, t.kids[i]) && Full(t.kids[i]) && Sorted(Flat(t.kids[i]))
      && Shape(t.kids[i], h - 1, LoAt(t.keys, lo, i), HiAt(t.keys, hi, i))
      && InRange(key, LoAt(t.keys, lo, i), HiAt(t.keys, hi, i))
    ensures var i := ChildAt(t.keys, key); var r := RemoveOf(ps, t.kids[i], key, false);
      r.Removed? ==>
        && Flat(r.node) == SeqDel(Flat(t.kids[i]), key) != Flat(t.kids[i]) && Mendable(ps, WithKid(t, i, r.node), i)
        && forall j :: 0 <= j < |t.kids| && j != i ==> NoEmpty(WithKid(t, i, r.node).kids[j])
  {
    hide RemoveOf, PagesFit, InRange, SeqDel, Mendable, Flat, Sorted, NoEmpty;
    assert ExactRun(t.keys, t.kids) && AllExact(t.kids);
    var i := ChildAt(t.keys, key);
    ChildAtSplits(t.keys, key, lo, hi);
    var c, lo', hi' := t.kids[i], LoAt(t.keys, lo, i), HiAt(t.keys, hi, i);
    assert Exact(c) && Reps(p, c) && Shape(c, h - 1, lo', hi') && Full(c);
    FlatOrdered(c, h - 1, lo', hi');
    RemoveFlat(ps, c, key, false, h - 1, lo', hi');
    if RemoveOf(ps, c, key, false).Removed? {
      RemoveNoEmpty(ps, p, c, key, false, h - 1, lo', hi');
      ChildMendable(ps, p, t, i, RemoveOf(ps, c, key, false).node, h, lo, hi);
    }
  }

  /** One page on the way down. */
  lemma {:induction false} ChildExact(ps: PageSize, t: Node, i: nat, c': Node, key: Key, isRoot: bool)
    requires t.Inner? && Exact(t) && i < |t.kids| == |t.keys| + 1 && Mendable(ps, WithKid(t, i, c'), i)
    requires forall j :: 0 <= j < |t.kids| && j != i ==> NoEmpty(WithKid(t, i, c').kids[j])
    requires Sorted(Flat(t.kids[i])) && Flat(c') == SeqDel(Flat(t.kids[i]), key) != Flat(t.kids[i])
    requires RepairOf(ps, WithKid(t, i, c'), i, isRoot).Wrote?
    ensures Exact(RepairOf(ps, WithKid(t, i, c'), i, isRoot).node) <==>
      Exact(c') && !(i > 0 && t.keys[i-1] == key && TakesDown(ps, WithKid(t, i, c'), i))
  {
    hide RepairOf, NoEmpty;
    var n := WithKid(t, i, c');
    assert ExactRun(t.keys, t.kids) && AllExact(t.kids);
    forall j | 0 <= j < |t.kids| && j != i ensures n.kids[j] == t.kids[j] && Exact(n.kids[j]) {
      assert Exact(t.kids[j]);
    }
    assert n.kids[i] == c';
    assert HeadsBut(n, i);
    RepairExact(ps, n, i, isRoot);
    if i > 0 && c'.Inner? {
      HeadBelow(c', key);
      assert HeadIs(t.kids[i], t.keys[i-1]);
      StaleSeparator(t.kids[i], c', t.keys[i-1], key);
    }
  }

  /** Deleting a key that is no separator on its way keeps separators exact. */
  lemma {:induction false} NoSeparatorPulled(ps: PageSize, t: Node, key: Key)
    requires PullsStale(ps, t, key)
    ensures SeparatorOnPath(t, key)
    decreases t
  {
    var i := ChildAt(t.keys, key);
    if PullsStale(ps, t.kids[i], key) { NoSeparatorPulled(ps, t.kids[i], key); }
  }

  ghost predicate SeparatorOnPath(t: Node, key: Key)
    decreases t
  { t.Inner? && (key in t.keys || var i := ChildAt(t.keys, key); i < |t.kids| && SeparatorOnPath(t.kids[i], key)) }

  // ---- insertion ----------------------------------------------------------

  lemma {:induction false} LeafRunExact(t: Node)
    requires t.Leaf?
    ensures ExactRun([], [t])
  {
    assert Exact([t][0]);
  }

  lemma {:induction false} LeafPairExact(a: Node, b: Node)
    requires a.Leaf? && b.Leaf? && b.cells != []
    ensures ExactRun([b.cells[0].key], [a, b])
  {
    assert Exact([a, b][0]) && Exact([a, b][1]);
  }

  lemma {:induction false} KidExact(t: Node, i: nat)
    requires t.Inner? && i < |t.kids|
    ensures Exact(t) ==> Exact(t.kids[i])
  {
    if Exact(t) { assert ExactRun(t.keys, t.kids) && AllExact(t.kids); }
  }

  /** A node on its own. */
  lemma {:induction false} OneExact(t: Node)
    ensures ExactRun([], [t]) <==> Exact(t)
    ensures t.Inner? ==> (Exact(t) <==> ExactRun(t.keys, t.kids))
  {
    assert AllExact([t]) <==> Exact([t][0]);
  }

  /** The middle separator moves up. */
  lemma {:induction false} SplitExact(x: PageId, r: PageId, keys: seq<Key>, kids: seq<Node>, m: nat)
    requires |kids| == |keys| + 1 && m < |keys| && ExactRun(keys, kids)
    ensures ExactRun([keys[m]], [Inner(x, keys[..m], kids[..m+1]), Inner(r, keys[m+1..], kids[m+1..])])
  {
    var a, b := Inner(x, keys[..m], kids[..m+1]), Inner(r, keys[m+1..], kids[m+1..]);
    assert keys == keys[..m] + [keys[m]] + keys[m+1..] && kids == kids[..m+1] + kids[m+1..];
    ExactJoin(keys[..m], kids[..m+1], keys[m], keys[m+1..], kids[m+1..]);
    assert HeadIs(b, keys[m]);
    OneExact(a);
    OneExact(b);
    ExactJoin([], [a], keys[m], [], [b]);
    assert [] + [keys[m]] + [] == [keys[m]] && [a] + [b] == [a, b];
  }

  /** The first key below a child that is not the first one stays: the new key is not below its separator. */
  lemma {:induction false} HeadAfterPut(c: Node, ns: seq<Node>, k: Key, key: Key, val: seq<Byte>)
    requires HeadIs(c, k) && !Less(key, k) && ns != [] && Flat(ns[0]) != [] && FlatAll(ns) == SeqPut(Flat(c), key, val)
    ensures HeadIs(ns[0], k)
  {
    Laws();
    assert FlatAll(ns)[0] == Flat(ns[0])[0];
  }

  /** A run of exact children replaces child i. */
  lemma {:induction false} WindowExact(keys: seq<Key>, kids: seq<Node>, i: nat, cks: seq<Key>, cns: seq<Node>)
    requires ExactRun(keys, kids) && i < |kids| == |keys| + 1 && ExactRun(cks, cns) && |cns| == |cks| + 1
    requires i > 0 ==> HeadIs(cns[0], keys[i-1])
    ensures ExactRun(keys[..i] + cks + keys[i..], kids[..i] + cns + kids[i+1..])
  {
    var ks, ns := keys[..i] + cks, kids[..i] + cns;
    if i > 0 {
      assert keys == keys[..i-1] + [keys[i-1]] + keys[i..] && kids == kids[..i] + kids[i..];
      ExactJoin(keys[..i-1], kids[..i], keys[i-1], keys[i..], kids[i..]);
      ExactJoin(keys[..i-1], kids[..i], keys[i-1], cks, cns);
      assert keys[..i-1] + [keys[i-1]] + cks == ks;
    } else {
      assert ks == cks && ns == cns;
    }
    if i < |keys| {
      assert keys == keys[..i] + [keys[i]] + keys[i+1..] && kids == kids[..i+1] + kids[i+1..];
      ExactJoin(keys[..i], kids[..i+1], keys[i], keys[i+1..], kids[i+1..]);
      ExactJoin(ks, ns, keys[i], keys[i+1..], kids[i+1..]);
      assert ks + [keys[i]] + keys[i+1..] == keys[..i] + cks + keys[i..];
    } else {
      assert keys[..i] + cks + keys[i..] == ks && kids[..i] + cns + kids[i+1..] == ns;
    }
  }

  /** A child that absorbed the key keeps the separators of its parent exact. */
  lemma {:induction false} ChildPutExact(t: Node, i: nat, cks: seq<Key>, cns: seq<Node>, key: Key, val: seq<Byte>,
                                         h: nat, lo: Bound, hi: Bound)
    requires t.Inner? && Exact(t) && i < |t.kids| == |t.keys| + 1
      && InRange(key, LoAt(t.keys, lo, i), HiAt(t.keys, hi, i))
    requires ExactRun(cks, cns) && KidsShape(cks, cns, h, LoAt(t.keys, lo, i), HiAt(t.keys, hi, i)) && AllFull(cns)
    requires FlatAll(cns) == SeqPut(Flat(t.kids[i]), key, val)
    ensures ExactRun(t.keys[..i] + cks + t.keys[i..], t.kids[..i] + cns + t.kids[i+1..])
  {
    assert |cns| == |cks| + 1;
    assert Shape(cns[0], h, LoAt(cks, LoAt(t.keys, lo, i), 0), HiAt(cks, HiAt(t.keys, hi, i), 0));
    FlatOrdered(cns[0], h, LoAt(cks, LoAt(t.keys, lo, i), 0), HiAt(cks, HiAt(t.keys, hi, i), 0));
    hide KidsShape, Flat, FlatAll, SeqPut;
    assert ExactRun(t.keys, t.kids);
    if i > 0 { HeadAfterPut(t.kids[i], cns, t.keys[i-1], key, val); }
    WindowExact(t.keys, t.kids, i, cks, cns);
  }

  // ---- a tree that becomes inexact ----------------------------------------

  function Lone(id: PageId, k: Key): Node { Leaf(id, [Cell(k, [])]) }

  /** Separators [2] | [3] | [4] over leaves [1] | [2] | [3], [3,0] | [4]. */
  function ExactTree(): Node {
    var a := Inner(2, [[2]], [Lone(4, [1]), Lone(5, [2])]);
    var b := Inner(3, [[4]], [Leaf(6, [Cell([3], []), Cell([3, 0], [])]), Lone(7, [4])]);
    Inner(1, [[3]], [a, b])
  }

  /** The tree after deleting [3]: it is still a separator. */
  function StaleTree(): Node {
    Inner(2, [[2], [3]], [Lone(4, [1]), Lone(5, [2]), Leaf(6, [Cell([3, 0], []), Cell([4], [])])])
  }

  lemma {:induction false} SmallSizes(ps: PageSize)
    ensures forall keys: seq<Key> :: |keys| <= 2 && (forall i :: 0 <= i < |keys| ==> |keys[i]| <= 2) ==>
      InternalUsed(keys) < Payload(ps) / 2
    ensures forall cs: seq<Cell> :: |cs| <= 2 && (forall i :: 0 <= i < |cs| ==> |cs[i].key| <= 2 && cs[i].val == []) ==>
      LeafUsed(ps, cs) < Payload(ps) / 2
  {
    forall keys: seq<Key> | |keys| <= 2 && (forall i :: 0 <= i < |keys| ==> |keys[i]| <= 2)
      ensures InternalUsed(keys) < Payload(ps) / 2 {
      KeysSizeBetween(keys, 16);
    }
    forall cs: seq<Cell> | |cs| <= 2 && (forall i :: 0 <= i < |cs| ==> |cs[i].key| <= 2 && cs[i].val == [])
      ensures LeafUsed(ps, cs) < Payload(ps) / 2 {
      if |cs| == 1 { assert cs == [cs[0]]; CellsSizeOne(ps, cs[0]); }
      if |cs| == 2 {
        assert cs == [cs[0]] + [cs[1]];
        CellsSizeSplice(ps, [cs[0]], [cs[1]]);
        CellsSizeOne(ps, cs[0]);
        CellsSizeOne(ps, cs[1]);
      }
    }
  }

  /** In the right half, the leaf that lost [3] is merged with its right sibling. */
  lemma {:induction false} StaleBelow(ps: PageSize)
    ensures RemoveOf(ps, ExactTree().kids[1], [3], false) ==
      Removed(Inner(3, [], [Leaf(6, [Cell([3, 0], []), Cell([4], [])])]))
  {
    var b, k: Key := ExactTree().kids[1], [3];
    var c: Node := Leaf(6, [Cell([3, 0], [])]);
    hide RepairOf;
    assert ChildAt(b.keys, k) == 0;
    assert SeqDel(b.kids[0].cells, k) == [Cell([3, 0], [])];
    assert RemoveOf(ps, b.kids[0], k, false) == Removed(c);
    assert WithKid(b, 0, c) == Inner(3, [[4]], [c, Lone(7, [4])]);
    StaleMerge(ps, c);
  }

  lemma {:induction false} StaleMerge(ps: PageSize, c: Node)
    requires c == Leaf(6, [Cell([3, 0], [])])
    ensures RepairOf(ps, Inner(3, [[4]], [c, Lone(7, [4])]), 0, false) ==
      Wrote(Inner(3, [], [Leaf(6, [Cell([3, 0], []), Cell([4], [])])]))
  {
    SmallSizes(ps);
    hide InternalUsed, LeafUsed;
    var n := Inner(3, [[4]], [c, Lone(7, [4])]);
    assert c.cells + Lone(7, [4]).cells == [Cell([3, 0], []), Cell([4], [])];
    assert MergedAt(n, 0) == Inner(3, [], [Leaf(6, [Cell([3, 0], []), Cell([4], [])])]);
    assert MergesRight(ps, n, 0);
  }

  /** At the root, the internal page without separators is merged to the left,
      around the separator [3], which is no key any more. */
  lemma {:induction false} StaleExample(ps: PageSize)
    ensures Exact(ExactTree()) && Shape(ExactTree(), 2, Open, Open) && Full(ExactTree())
    ensures RemoveOf(ps, ExactTree(), [3], true) == Removed(StaleTree())
    ensures PullsStale(ps, ExactTree(), [3]) && !Exact(StaleTree())
  {
    StaleBelow(ps);
    StaleShape();
    hide RepairOf, Exact, Shape, TakesDown;
    var t, k: Key, b := ExactTree(), [3], Inner(3, [], [Leaf(6, [Cell([3, 0], []), Cell([4], [])])]);
    assert ChildAt([], k) == 0 && t.keys[1..] == [];
    assert ChildAt(t.keys, k) == 1;
    assert WithKid(t, 1, b) == Inner(1, [k], [t.kids[0], b]);
    StaleRepair(ps, b);
  }

  lemma {:induction false} StaleRepair(ps: PageSize, b: Node)
    requires b == Inner(3, [], [Leaf(6, [Cell([3, 0], []), Cell([4], [])])])
    ensures var n := Inner(1, [[3]], [ExactTree().kids[0], b]);
      RepairOf(ps, n, 1, true) == Wrote(StaleTree()) && TakesDown(ps, n, 1)
  {
    SmallSizes(ps);
    hide InternalUsed, LeafUsed, LeafFits;
    var a := ExactTree().kids[0];
    var n := Inner(1, [[3]], [a, b]);
    assert MergedInner(n, 0).keys == [[2]] + [[3]] + [] && MergedInner(n, 0).kids == a.kids + b.kids;
    assert MergedInner(n, 0) == StaleTree();
    assert SpliceKeys(n, 0, []) == [] && SpliceKids(n, 0, [StaleTree()]) == [StaleTree()];
    assert MergedAt(n, 0) == Inner(1, [], [StaleTree()]);
    assert MergesLeft(ps, n, 1);
  }

  lemma {:induction false} StaleShape()
    ensures Exact(ExactTree()) && Shape(ExactTree(), 2, Open, Open) && Full(ExactTree()) && !Exact(StaleTree())
  {
    hide Exact;
    var t, a, b := ExactTree(), ExactTree().kids[0], ExactTree().kids[1];
    assert Exact(a.kids[0]) && Exact(a.kids[1]) && Exact(b.kids[0]) && Exact(b.kids[1]) by { LeafExact(); }
    TwoFlat(a.kids[0], a.kids[1]);
    TwoFlat(b.kids[0], b.kids[1]);
    PairExact(a);
    PairExact(b);
    PairExact(t);
    StaleLeaf();
    PairShape(a, 0, Open, At([3]));
    PairShape(b, 0, At([3]), Open);
    PairShape(t, 1, Open, Open);
  }

  lemma {:induction false} PairExact(t: Node)
    requires t.Inner? && |t.keys| == 1 && |t.kids| == 2
    ensures Exact(t) <==> Exact(t.kids[0]) && Exact(t.kids[1]) && HeadIs(t.kids[1], t.keys[0])
  {
    var a, b, s := t.kids[0], t.kids[1], t.keys[0];
    ExactJoin([], [a], s, [], [b]);
    assert [] + [s] + [] == t.keys && [a] + [b] == t.kids;
    assert (AllExact([a]) <==> Exact([a][0])) && (AllExact([b]) <==> Exact([b][0]));
  }

  lemma {:induction false} PairShape(t: Node, h: nat, lo: Bound, hi: Bound)
    requires t.Inner? && |t.keys| == 1 && |t.kids| == 2 && Inside(t.keys[0], lo, hi)
    requires Shape(t.kids[0], h, lo, At(t.keys[0])) && Shape(t.kids[1], h, At(t.keys[0]), hi) && AllFull(t.kids)
    ensures Shape(t, h + 1, lo, hi)
  {
    var a, b, s := t.kids[0], t.kids[1], t.keys[0];
    KidsOne(a, h, lo, At(s));
    KidsOne(b, h, At(s), hi);
    Join([], [a], s, [], [b], h, lo, hi);
    assert [] + [s] + [] == t.keys && [a] + [b] == t.kids;
  }

  lemma {:induction false} LeafExact()
    ensures forall t: Node :: t.Leaf? ==> Exact(t)
  {}

  lemma {:induction false} StaleLeaf()
    ensures !Exact(StaleTree())
  {
    var t := StaleTree();
    assert t.keys[1] == [3] && !HeadIs(t.kids[2], t.keys[1]);
  }
}
