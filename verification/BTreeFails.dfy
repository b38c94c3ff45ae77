/** Two trees on which an update fails although checkKey admits every key. */
module BTreeFails {
  import opened Bytes
  import opened BTreeShape
  import opened BTreeSize
  import opened BTreePages
  import opened BTreeBalance
  import opened BTreeChange
  import opened BTreeRoom
  import opened BTree

  // ---- a root page over leaves --------------------------------------------

  /** Leaf i has page id i + 2. */
  function LeafNodes(leaves: seq<seq<Cell>>): (kids: seq<Node>)
    ensures |kids| == |leaves| && forall i :: 0 <= i < |kids| ==> kids[i] == Leaf(i + 2, leaves[i])
  { seq(|leaves|, i requires 0 <= i < |leaves| => Leaf(i + 2, leaves[i])) }

  /** The root page has id 1. */
  function Flatbed(keys: seq<Key>, leaves: seq<seq<Cell>>): Node { Inner(1, keys, LeafNodes(leaves)) }

  function LinkedPage(leaves: seq<seq<Cell>>, i: nat): Page
    requires i < |leaves|
  { LeafPage(if i == 0 then 0 else i + 1, if i + 1 == |leaves| then 0 else i + 3, leaves[i]) }

  function LeafPages(leaves: seq<seq<Cell>>, n: nat): (p: Pages)
    requires n <= |leaves|
    ensures forall x :: x in p <==> 2 <= x < n + 2
    ensures forall x :: x in p ==> p[x] == LinkedPage(leaves, x - 2)
  { if n == 0 then map[] else LeafPages(leaves, n - 1)[n + 1 := LinkedPage(leaves, n - 1)] }

  function FlatbedPages(keys: seq<Key>, leaves: seq<seq<Cell>>): (p: Pages)
    ensures forall x :: x in p <==> 1 <= x < |leaves| + 2
    ensures forall x :: x in p && x > 1 ==> p[x] == LinkedPage(leaves, x - 2)
    ensures p[1] == InternalPage(keys, IdsOf(LeafNodes(leaves)))
  { LeafPages(leaves, |leaves|)[1 := InternalPage(keys, IdsOf(LeafNodes(leaves)))] }

  function Numbers(i: nat, n: nat): (s: seq<nat>)
    requires i <= n
    ensures |s| == n - i && forall j :: 0 <= j < |s| ==> s[j] == i + 2 + j
    decreases n - i
  { if i == n then [] else [i + 2] + Numbers(i + 1, n) }

  lemma {:induction false} LeavesFrom(leaves: seq<seq<Cell>>, i: nat)
    requires i <= |leaves|
    ensures LeafIdsAll(LeafNodes(leaves)[i..]) == Numbers(i, |leaves|)
    ensures forall x :: IdsAll(LeafNodes(leaves)[i..])[x] == if i + 2 <= x < |leaves| + 2 then 1 else 0
    decreases |leaves| - i
  {
    var kids := LeafNodes(leaves);
    if i < |leaves| {
      LeavesFrom(leaves, i + 1);
      assert kids[i..][1..] == kids[i+1..] && kids[i..][0] == Leaf(i + 2, leaves[i]);
    }
  }

  lemma {:induction false} ChainFrom(p: Pages, leaves: seq<seq<Cell>>, i: nat)
    requires i <= |leaves| && forall x :: 2 <= x < |leaves| + 2 ==> x in p && p[x] == LinkedPage(leaves, x - 2)
    ensures Chain(p, if i == 0 then 0 else i + 1, Numbers(i, |leaves|), 0)
    decreases |leaves| - i
  {
    if i < |leaves| {
      ChainFrom(p, leaves, i + 1);
      var ls := Numbers(i, |leaves|);
      assert ls[1..] == Numbers(i + 1, |leaves|) && ls[0] == i + 2;
      LinkedAt(p, leaves, i);
    }
  }

  lemma {:induction false} LinkedAt(p: Pages, leaves: seq<seq<Cell>>, i: nat)
    requires i < |leaves| && i + 2 in p && p[i+2] == LinkedPage(leaves, i)
    ensures LeafWith(p, i + 2, if i == 0 then 0 else i + 1, First(Numbers(i + 1, |leaves|), 0))
  {}

  lemma {:induction false} FlatbedHeld(keys: seq<Key>, leaves: seq<seq<Cell>>)
    ensures Held(FlatbedPages(keys, leaves), [Flatbed(keys, leaves)], [], [])
  {
    hide Linked, Reps, NoDup, Held, FlatbedPages;
    FlatbedReps(keys, leaves);
    FlatbedIds(keys, leaves);
    FlatbedLinked(FlatbedPages(keys, leaves), leaves);
    RootHeld(FlatbedPages(keys, leaves), Flatbed(keys, leaves), Numbers(0, |leaves|));
  }

  lemma {:induction false} RootHeld(p: Pages, t: Node, ls: seq<PageId>)
    requires Reps(p, t) && NoDup(IdsAll([t])) && LeafIdsAll([t]) == ls && Linked(p, ls)
    ensures Held(p, [t], [], [])
  {
    hide Linked, Reps, NoDup, IdsAll, LeafIdsAll;
    assert [] + ls + [] == ls;
    assert [t][0] == t;
  }

  lemma {:induction false} FlatbedLinked(p: Pages, leaves: seq<seq<Cell>>)
    requires forall x :: 2 <= x < |leaves| + 2 ==> x in p && p[x] == LinkedPage(leaves, x - 2)
    ensures Linked(p, Numbers(0, |leaves|))
  {
    ChainFrom(p, leaves, 0);
  }

  lemma {:induction false} FlatbedIds(keys: seq<Key>, leaves: seq<seq<Cell>>)
    ensures NoDup(IdsAll([Flatbed(keys, leaves)])) && LeafIdsAll([Flatbed(keys, leaves)]) == Numbers(0, |leaves|)
  {
    var kids := LeafNodes(leaves);
    LeavesFrom(leaves, 0);
    assert kids[0..] == kids;
    OneInner(1, keys, kids);
    hide IdsAll, LeafIdsAll, LeafNodes, Numbers;
  }

  lemma {:induction false} FlatbedReps(keys: seq<Key>, leaves: seq<seq<Cell>>)
    ensures Reps(FlatbedPages(keys, leaves), Flatbed(keys, leaves))
  {
    hide FlatbedPages, LeafNodes;
    var p, kids := FlatbedPages(keys, leaves), LeafNodes(leaves);
    forall i | 0 <= i < |kids| ensures Reps(p, kids[i]) {}
  }

  /** Each leaf is sorted and between its separators. */
  predicate Between(keys: seq<Key>, leaves: seq<seq<Cell>>) {
    && |leaves| == |keys| + 1 && SortedKeys(keys)
    && forall i :: 0 <= i < |leaves| ==>
         leaves[i] != [] && Sorted(leaves[i]) && CellsIn(leaves[i], LoAt(keys, Open, i), HiAt(keys, Open, i))
  }

  lemma {:induction false} FlatbedShape(keys: seq<Key>, leaves: seq<seq<Cell>>)
    requires Between(keys, leaves) && keys != []
    ensures Shape(Flatbed(keys, leaves), 1, Open, Open) && Full(Flatbed(keys, leaves))
  {
    var kids := LeafNodes(leaves);
    forall i | 0 <= i < |kids| ensures Shape(kids[i], 0, LoAt(keys, Open, i), HiAt(keys, Open, i)) && Full(kids[i]) {}
    assert KidsShape(keys, kids, 0, Open, Open) && AllFull(kids);
  }

  lemma {:induction false} FlatbedFits(ps: PageSize, keys: seq<Key>, leaves: seq<seq<Cell>>, s: iset<Key>)
    requires InternalFits(ps, keys) && AllIn(keys, s)
    requires forall i :: 0 <= i < |leaves| ==> LeafFits(ps, leaves[i]) && CellKeysIn(leaves[i], s)
    ensures PagesFit(ps, FlatbedPages(keys, leaves)) && PagesKeys(FlatbedPages(keys, leaves), s)
  {
    hide FlatbedPages;
    var p := FlatbedPages(keys, leaves);
    forall x | x in p ensures PageFits(ps, p[x]) && PageKeys(p[x], s) {
      if x > 1 { assert p[x].cells == leaves[x-2]; }
    }
  }

  // ---- Delete -------------------------------------------------------------

  function Zeros(n: nat): seq<Byte> { seq(n, _ => 0) }

  /** The leaf right of separator 10. */
  function LateCells(): seq<Cell> { [Cell([10, 0], []), Cell(LateKey(), Zeros(1000)), Cell([10, 1], Zeros(1000))] }

  function LateLeaves(): (leaves: seq<seq<Cell>>)
    ensures |leaves| == 254
  {
    seq(254, i requires 0 <= i < 254 =>
      if i == 0 then [Cell([], [])] else if i == 11 then LateCells() else [Cell([i - 1, 0], [])])
  }

  lemma {:induction false} LateSizes()
    ensures LeafFits(4096, LateCells()) && !Sparse(4096, Leaf(13, LateCells()[1..]))
    ensures forall k: Key :: |k| <= 2 ==> LeafFits(4096, [Cell(k, [])])
  {
    var cs := LateCells();
    CellsSizeAround(4096, cs, 0);
    CellsSizeAround(4096, cs[1..], 0);
    CellsSizeOne(4096, cs[2]);
    assert cs[..0] == [] && cs[1..][..0] == [] && cs[1..][1..] == [cs[2]];
    forall k: Key | |k| <= 2 ensures LeafFits(4096, [Cell(k, [])]) { CellsSizeOne(4096, Cell(k, [])); }
  }

  lemma {:induction false} LateBetween()
    ensures Between(PackedKeys(), LateLeaves())
  {
    MixedLengthsDefeatSync();
    var keys, leaves := PackedKeys(), LateLeaves();
    forall i | 0 <= i < 254
      ensures leaves[i] != [] && Sorted(leaves[i]) && CellsIn(leaves[i], LoAt(keys, Open, i), HiAt(keys, Open, i))
    {
      if i == 11 { LateCellsBetween(); } else { SingleBetween(i); }
    }
  }

  lemma {:induction false} SingleBetween(i: nat)
    requires i < 254 && i != 11
    ensures var cs, keys := LateLeaves()[i], PackedKeys();
      cs != [] && Sorted(cs) && CellsIn(cs, LoAt(keys, Open, i), HiAt(keys, Open, i))
  {
    var keys := PackedKeys();
    assert i < 253 ==> keys[i][0] == i;
    if i > 0 { LessIrreflexive(keys[i-1]); }
  }

  lemma {:induction false} LateCellsBetween()
    ensures LateCells() != [] && Sorted(LateCells()) && CellsIn(LateCells(), At([10, 0]), At([11, 0]))
  {
    Laws();
    LateOrder();
    hide LateKey;
    var cs := LateCells();
    assert cs[0].key == [10, 0] && cs[1].key == LateKey() && cs[2].key == [10, 1];
    assert Less(cs[0].key, cs[2].key) && Less(cs[2].key, [11, 0]);
  }

  lemma {:induction false} LateOrder()
    ensures Less([10, 0], LateKey()) && Less(LateKey(), [10, 1])
  {
    var k := LateKey();
    assert k[0] == 10 && k[1] == 0 && k[1..][0] == 0;
  }

  /** A page that stays half full, and whose next smallest key does not fit the parent. */
  lemma {:induction false} UnfitRefresh(ps: PageSize, t: Node, i: nat, c: Node, key: Key)
    requires t.Inner? && ChildAt(t.keys, key) == i && 0 < i < |t.kids| && i <= |t.keys|
    requires RemoveOf(ps, t.kids[i], key, false) == Removed(c) && !Sparse(ps, c)
    requires Flat(c) != [] && !InternalFits(ps, t.keys[i-1 := Flat(c)[0].key])
    ensures RemoveOf(ps, t, key, true) == Unfit
  {
    hide InternalFits, Sparse, ChildAt;
    var n := WithKid(t, i, c);
    assert n.kids[i] == c && n.keys == t.keys;
    assert SyncOf(ps, n, i) == Overflow;
  }

  /** All keys are short, the tree is valid, and deleting [10, 0] fails: the next
      key of that leaf is too long for the root page. */
  lemma {:induction false} LateUnfit()
    ensures RemoveOf(4096, Flatbed(PackedKeys(), LateLeaves()), [10, 0], true) == Unfit
  {
    var key: Key, t := [10, 0], Flatbed(PackedKeys(), LateLeaves());
    MixedLengthsDefeatSync();
    LateSizes();
    PackedChild();
    LateRemoved();
    hide PackedKeys, InternalFits, Sparse, ChildAt, RemoveOf, LateCells;
    assert t.kids[11] == Leaf(13, LateCells());
    UnfitRefresh(4096, t, 11, Leaf(13, LateCells()[1..]), key);
  }

  lemma {:induction false} LateRemoved()
    ensures RemoveOf(4096, Leaf(13, LateCells()), [10, 0], false) == Removed(Leaf(13, LateCells()[1..]))
    ensures Flat(Leaf(13, LateCells()[1..]))[0].key == LateKey()
  {}

  lemma {:induction false} PackedChild()
    ensures ChildAt(PackedKeys(), [10, 0]) == 11
  {
    var keys, key: Key := PackedKeys(), [10, 0];
    forall j | 0 <= j < 11 ensures !Less(key, keys[j]) { assert keys[j][0] == j && |keys[j]| == 2; }
    assert keys[11][0] == 11;
    ChildAtIs(keys, key, 11);
  }

  method DeleteFails() returns (ok: bool)
    ensures !ok
  {
    hide FlatbedPages;
    var keys, leaves := PackedKeys(), LateLeaves();
    FlatbedHeld(keys, leaves);
    LateBetween();
    FlatbedShape(keys, leaves);
    LateStored();
    LateUnfit();
    var t := new Tree.Loaded(4096, FlatbedPages(keys, leaves), 256, 1, Flatbed(keys, leaves), 1);
    ok := t.Delete([10, 0]);
  }

  lemma {:induction false} LateStored()
    ensures PagesFit(4096, FlatbedPages(PackedKeys(), LateLeaves()))
    ensures PagesKeys(FlatbedPages(PackedKeys(), LateLeaves()), ShortSet(4096))
    ensures PagesKeys(FlatbedPages(PackedKeys(), LateLeaves()), HalfSet(4096))
  {
    var keys, leaves := PackedKeys(), LateLeaves();
    MixedLengthsDefeatSync();
    LateSizes();
    hide KeysSize, CellsSize, FlatbedPages;
    FlatbedFits(4096, keys, leaves, ShortSet(4096));
    KeySets(4096, FlatbedPages(keys, leaves));
  }

  // ---- Put ----------------------------------------------------------------

  /** Seven separators, three of them long. */
  function TightKeys(): (keys: seq<Key>)
    ensures |keys| == 7
  { [LongKey(0), LongKey(1), LongKey(2), [4], [5], [6], [7]] }

  function TightLeaves(): (leaves: seq<seq<Cell>>)
    ensures |leaves| == 8
  {
    seq(8, i requires 0 <= i < 8 =>
      if i == 0 then [Cell([], [])] else if i == 3 then [Cell(LongKey(2), Zeros(1000))]
        else [Cell(TightKeys()[i-1], [])])
  }

  lemma {:induction false} TightSizes()
    ensures InternalFits(4096, TightKeys()) && forall i :: 0 <= i < 7 ==> TightKeys()[i] in HalfSet(4096)
    ensures forall i :: 0 <= i < 8 ==> LeafFits(4096, TightLeaves()[i])
  {
    LongKeysDefeatSplit();
    var keys := TightKeys();
    assert keys == CrowdedKeys()[..3] + CrowdedKeys()[4..];
    forall i | 0 <= i < 8 ensures LeafFits(4096, TightLeaves()[i]) { CellsSizeOne(4096, TightLeaves()[i][0]); }
  }

  lemma {:induction false} TightBetween()
    ensures Between(TightKeys(), TightLeaves())
  {
    Laws();
    var keys, leaves := TightKeys(), TightLeaves();
    FirstBytesRise(keys);
    forall i | 0 <= i < 8
      ensures leaves[i] != [] && Sorted(leaves[i]) && CellsIn(leaves[i], LoAt(keys, Open, i), HiAt(keys, Open, i))
    {
      var c: Cell := leaves[i][0];
      assert c.key == if i == 0 then [] else keys[i-1];
    }
  }

  lemma {:induction false} FirstBytesRise(keys: seq<Key>)
    requires forall i :: 0 <= i < |keys| ==> keys[i] != []
    requires forall i, j :: 0 <= i < j < |keys| ==> keys[i][0] < keys[j][0]
    ensures SortedKeys(keys)
  {}

  /** The cells of the leaf that gets LongKey(3), which splits in two. */
  lemma {:induction false} TightSplit()
    ensures InsertOf(4096, Leaf(5, [Cell(LongKey(2), Zeros(1000))]), LongKey(3), Zeros(1000)) == Splits(LongKey(3))
  {
    var a, b := Cell(LongKey(2), Zeros(1000)), Cell(LongKey(3), Zeros(1000));
    assert Less(LongKey(2), LongKey(3));
    assert [a][1..] == [] && [a] + [b] == [a, b];
    assert SeqPut([a], b.key, b.val) == [a, b];
    CellsSizeSplice(4096, [a], [b]);
    CellsSizeOne(4096, a);
    CellsSizeOne(4096, b);
    assert LeafCut(4096, [a, b]) == 1;
    assert [a, b][..1] == [a] && [a, b][1..] == [b];
  }

  /** An insertion below child i splits it at sep, and the page cannot be split in turn. */
  lemma {:induction false} NoRoomAbove(ps: PageSize, t: Node, i: nat, key: Key, val: seq<Byte>, sep: Key)
    requires t.Inner? && ChildAt(t.keys, key) == i && i < |t.kids| && i <= |t.keys|
    requires InsertOf(ps, t.kids[i], key, val) == Splits(sep)
    requires var keys := t.keys[..i] + [sep] + t.keys[i..]; !InternalFits(ps, keys[..|keys|/2])
    ensures InsertOf(ps, t, key, val) == NoRoom
  {
    hide ChildAt;
    var keys := t.keys[..i] + [sep] + t.keys[i..];
    KeysSizeSplice(keys[..|keys|/2], keys[|keys|/2..]);
    assert keys[..|keys|/2] + keys[|keys|/2..] == keys;
  }

  lemma {:induction false} TightNoRoom()
    ensures InsertOf(4096, Flatbed(TightKeys(), TightLeaves()), LongKey(3), Zeros(1000)) == NoRoom
  {
    var keys, t := TightKeys(), Flatbed(TightKeys(), TightLeaves());
    LongKeysDefeatSplit();
    TightSplit();
    TightChild();
    assert t.kids[3] == Leaf(5, [Cell(LongKey(2), Zeros(1000))]);
    assert keys[..3] + [LongKey(3)] + keys[3..] == CrowdedKeys();
    hide InternalFits, InsertOf, ChildAt, LongKey;
    NoRoomAbove(4096, t, 3, LongKey(3), Zeros(1000), LongKey(3));
  }

  lemma {:induction false} TightChild()
    ensures ChildAt(TightKeys(), LongKey(3)) == 3
  {
    var keys, key := TightKeys(), LongKey(3);
    forall j | 0 <= j < 3 ensures !Less(key, keys[j]) { assert keys[j][0] == j && key[0] == 3; }
    assert keys[3][0] == 4;
    ChildAtIs(keys, key, 3);
  }

  lemma {:induction false} TightStored()
    ensures PagesFit(4096, FlatbedPages(TightKeys(), TightLeaves()))
    ensures PagesKeys(FlatbedPages(TightKeys(), TightLeaves()), HalfSet(4096))
  {
    TightSizes();
    hide KeysSize, CellsSize, FlatbedPages;
    FlatbedFits(4096, TightKeys(), TightLeaves(), HalfSet(4096));
  }

  /** Put of an admitted key fails: the leaf splits, and then half of the root page does not fit. */
  method PutFails() returns (ok: bool)
    ensures !ok
  {
    hide FlatbedPages;
    var keys, leaves := TightKeys(), TightLeaves();
    FlatbedHeld(keys, leaves);
    TightBetween();
    FlatbedShape(keys, leaves);
    TightStored();
    TightNoRoom();
    var t := new Tree.Loaded(4096, FlatbedPages(keys, leaves), 10, 1, Flatbed(keys, leaves), 1);
    assert HalfKey(4096, LongKey(3));
    ok := t.Put(LongKey(3), Zeros(1000));
  }
}
