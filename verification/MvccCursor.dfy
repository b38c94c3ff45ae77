/** Cursors of a transaction: the materialized view of one keyspace, in key order. */
module MvccCursor {
  import opened Options
  import opened Bytes
  import opened Versions
  import opened Mvcc

  datatype KV = KV(k: Key, v: Payload)

  predicate Ascending(kvs: seq<KV>) { forall i, j :: 0 <= i < j < |kvs| ==> Less(kvs[i].k, kvs[j].k) }

  /** The pairs are exactly one keyspace of a content, in key order. */
  ghost predicate Enumerates(kvs: seq<KV>, c: Content, ks: Byte) {
    && Ascending(kvs)
    && (forall kv :: kv in kvs ==> Lookup(c, Name(ks, kv.k)) == Some(kv.v))
    && (forall k :: Name(ks, k) in c ==> KV(k, c[Name(ks, k)]) in kvs)
  }

  method Least(s: set<Key>) returns (k: Key)
    requires s != {}
    ensures k in s && forall x :: x in s ==> LessEq(k, x)
  {
    Laws();
    hide Less;
    k :| k in s;
    var todo := s - {k};
    while todo != {}
      invariant todo <= s && k in s && forall x :: x in s ==> x in todo || LessEq(k, x)
    {
      var x :| x in todo;
      if Less(x, k) { k := x; }
      todo := todo - {x};
    }
  }

  /** The keys of a set in byte order, as an engine cursor or sort.Slice gives them. */
  method Sorted(s: set<Key>) returns (out: seq<Key>)
    ensures SortedKeys(out) && forall k :: k in out <==> k in s
  {
    Laws();
    out := [];
    var todo := s;
    while todo != {}
      invariant todo <= s && SortedKeys(out)
      invariant forall k :: k in out <==> k in s && k !in todo
      invariant forall i, k :: 0 <= i < |out| && k in todo ==> Less(out[i], k)
    {
      var k := Least(todo);
      out := out + [k];
      todo := todo - {k};
    }
  }

  predicate Below(kvs: seq<KV>, k: Key) { forall i :: 0 <= i < |kvs| ==> Less(kvs[i].k, k) }

  /** Appending a larger pair keeps the order. */
  lemma {:induction false} Extend(kvs: seq<KV>, kv: KV)
    requires Ascending(kvs) && Below(kvs, kv.k)
    ensures Ascending(kvs + [kv])
  {}

  lemma {:induction false} ExtendAll(a: seq<KV>, b: seq<KV>)
    requires Ascending(a) && Ascending(b) && forall j :: 0 <= j < |b| ==> Below(a, b[j].k)
    ensures Ascending(a + b)
  {
    forall i, j | 0 <= i < j < |a + b| ensures Less((a + b)[i].k, (a + b)[j].k) {
      if i < |a| <= j { assert Below(a, b[j - |a|].k); }
    }
  }

  /** mergeKV: one ordered sequence from two with no key in common. */
  method MergeKV(a: seq<KV>, b: seq<KV>) returns (out: seq<KV>)
    requires Ascending(a) && Ascending(b) && forall i, j :: 0 <= i < |a| && 0 <= j < |b| ==> a[i].k != b[j].k
    ensures Ascending(out) && forall kv :: kv in out <==> kv in a || kv in b
  {
    Laws();
    out := [];
    var i, j := 0, 0;
    while i < |a| && j < |b|
      invariant i <= |a| && j <= |b| && Ascending(out)
      invariant forall kv :: kv in out <==> kv in a[..i] || kv in b[..j]
      invariant (i < |a| ==> Below(out, a[i].k)) && (j < |b| ==> Below(out, b[j].k))
      decreases |a| - i + |b| - j
    {
      assert a[..i+1] == a[..i] + [a[i]] && b[..j+1] == b[..j] + [b[j]];
      if LessEq(a[i].k, b[j].k) {
        Extend(out, a[i]);
        out := out + [a[i]];
        i := i + 1;
      } else {
        Extend(out, b[j]);
        out := out + [b[j]];
        j := j + 1;
      }
    }
    ghost var was := out;
    assert a == a[..i] + a[i..] && b == b[..j] + b[j..];
    forall x | 0 <= x < |a[i..]| ensures Below(out, a[i..][x].k) {}
    ExtendAll(out, a[i..]);
    out := out + a[i..];
    assert i == |a| ==> out == was;
    forall x | 0 <= x < |b[j..]| ensures Below(out, b[j..][x].k) { assert j < |b| ==> i == |a|; }
    ExtendAll(out, b[j..]);
    out := out + b[j..];
  }

  /** The keys of one keyspace. */
  function KeysIn<V>(m: map<Name, V>, ks: Byte): set<Key> { set n | n in m && n.ks == ks :: n.key }

  /** materialize: the snapshot and the write set of one keyspace. */
  method Materialize(t: Tx, ks: Byte) returns (kvs: seq<KV>)
    requires t.Valid() && !t.done
    ensures t.snapshot < |t.m.hist| && Enumerates(kvs, t.Sees(), ks)
  {
    hide Sound, View, Less;
    var heads, overlay := KeysIn(t.m.heads, ks), t.writes;
    var order := Sorted(heads);
    var base := Base(t, ks, order);
    var added := set k | k in KeysIn(overlay, ks) && k !in heads && !overlay[Name(ks, k)].del;
    var order' := Sorted(added);
    assert forall i :: 0 <= i < |order'| ==> order'[i] in added;
    var extra := seq(|order'|, i requires 0 <= i < |order'| => KV(order'[i], overlay[Name(ks, order'[i])].val));
    assert forall k :: k in added ==> KV(k, overlay[Name(ks, k)].val) in extra by {
      forall k | k in added ensures KV(k, overlay[Name(ks, k)].val) in extra {
        var i :| 0 <= i < |order'| && order'[i] == k;
        assert extra[i] == KV(k, overlay[Name(ks, k)].val);
      }
    }
    forall i, j | 0 <= i < |base| && 0 <= j < |extra| ensures base[i].k != extra[j].k {
      assert base[i] in base;
      assert order'[j] in added;
    }
    kvs := MergeKV(base, extra);
    ViewParts(t, ks, base, extra, kvs);
  }

  /** The pairs whose key has a head: the view there, in key order. */
  method Base(t: Tx, ks: Byte, order: seq<Key>) returns (base: seq<KV>)
    requires t.Valid() && !t.done && SortedKeys(order) && forall k :: k in order ==> Name(ks, k) in t.m.heads
    ensures t.snapshot < |t.m.hist| && Ascending(base)
    ensures forall kv :: kv in base <==> kv.k in order && Lookup(t.Sees(), Name(ks, kv.k)) == Some(kv.v)
  {
    hide Sound, View;
    base := [];
    for i := 0 to |order|
      invariant Ascending(base)
      invariant forall kv :: kv in base <==> kv.k in order[..i] && Lookup(t.Sees(), Name(ks, kv.k)) == Some(kv.v)
    {
      var k := order[i];
      var n := Name(ks, k);
      assert order[..i+1] == order[..i] + [k];
      ViewAt(t.m.hist[t.snapshot], t.writes, n);
      var found := t.m.ReadAt(n, t.snapshot);
      forall x | 0 <= x < |base| ensures Less(base[x].k, k) { assert base[x] in base; }
      ghost var was := base;
      if n in t.writes {
        if !t.writes[n].del {
          Extend(base, KV(k, t.writes[n].val));
          base := base + [KV(k, t.writes[n].val)];
        }
      } else if found.Some? {
        Extend(base, KV(k, found.value));
        base := base + [KV(k, found.value)];
      }
      assert k !in order[..i] by { Laws(); }
    }
    assert order[..|order|] == order;
  }

  /** A key without a head is in the view only if the transaction wrote it. */
  lemma {:induction false} ViewParts(t: Tx, ks: Byte, base: seq<KV>, extra: seq<KV>, kvs: seq<KV>)
    requires t.Valid() && t.m.low <= t.snapshot < |t.m.hist| && Ascending(kvs) && forall kv :: kv in kvs <==>
      kv in base || kv in extra
    requires forall kv :: kv in base <==>
      kv.k in KeysIn(t.m.heads, ks) && Lookup(t.Sees(), Name(ks, kv.k)) == Some(kv.v)
    requires forall kv :: kv in extra ==>
      Name(ks, kv.k) in t.writes
        && t.writes[Name(ks, kv.k)] ==
          WriteOp(kv.v, false, t.writes[Name(ks, kv.k)].unique, t.writes[Name(ks, kv.k)].shadowed)
    requires forall k :: Name(ks, k) in t.writes && Name(ks, k) !in t.m.heads && !t.writes[Name(ks, k)].del ==>
      KV(k, t.writes[Name(ks, k)].val) in extra
    ensures Enumerates(kvs, t.Sees(), ks)
  {
    forall kv | kv in kvs ensures Lookup(t.Sees(), Name(ks, kv.k)) == Some(kv.v) {
      ViewAt(t.m.hist[t.snapshot], t.writes, Name(ks, kv.k));
    }
    forall k | Name(ks, k) in t.Sees() ensures KV(k, t.Sees()[Name(ks, k)]) in kvs {
      var n := Name(ks, k);
      ViewAt(t.m.hist[t.snapshot], t.writes, n);
      assert HeadOk(t.m.State(), n);
      if n in t.m.heads { assert k in KeysIn(t.m.heads, ks); }
    }
  }

  // ---- the cursor -----------------------------------------------------------------------

  /** sort.Search for the first key at or after a target, or strictly after it. */
  method Search(kvs: seq<KV>, target: Key, after: bool) returns (i: nat)
    requires Ascending(kvs)
    ensures i <= |kvs|
    ensures forall x :: 0 <= x < i ==> if after then LessEq(kvs[x].k, target) else Less(kvs[x].k, target)
    ensures forall x :: i <= x < |kvs| ==> if after then Less(target, kvs[x].k) else LessEq(target, kvs[x].k)
  {
    Laws();
    var j := |kvs|;
    i := 0;
    while i < j
      invariant i <= j <= |kvs|
      invariant forall x :: 0 <= x < i ==> if after then LessEq(kvs[x].k, target) else Less(kvs[x].k, target)
      invariant forall x :: j <= x < |kvs| ==> if after then Less(target, kvs[x].k) else LessEq(target, kvs[x].k)
    {
      var h := (i + j) / 2;
      var c := Compare(kvs[h].k, target);
      if (if after then c > 0 else c >= 0) { j := h; } else { i := h + 1; }
    }
  }

  datatype Range = All | From(k: Key) | After(k: Key) | UpTo(k: Key) | Before(k: Key)

  predicate In(r: Range, k: Key) {
    match r
    case All => true
    case From(x) => LessEq(x, k)
    case After(x) => Less(x, k)
    case UpTo(x) => LessEq(k, x)
    case Before(x) => Less(k, x)
  }

  class Cursor {
    const t: Tx
    const ks: Byte
    var kvs: seq<KV>
    var idx: int
    var closed: bool
    /** What the transaction saw at the last seek. */
    ghost var seen: Content

    constructor (t: Tx, ks: Byte)
      ensures this.t == t && this.ks == ks && !closed && idx == -1 && Valid()
    {
      this.t, this.ks := t, ks;
      kvs, idx, closed, seen := [], -1, false, map[];
    }

    ghost predicate Valid() reads this { -1 <= idx < |kvs| && (idx >= 0 ==> Enumerates(kvs, seen, ks)) }

    ghost predicate Usable() reads this, t { !closed && !t.done }

    /** The cursor stands on the first key of c in a range, or on none. */
    ghost predicate OnFirst(c: Content, r: Range) reads this {
      if idx >= 0 then idx < |kvs| && Lookup(c, Name(ks, kvs[idx].k)) == Some(kvs[idx].v) && In(r, kvs[idx].k)
        && forall k :: Name(ks, k) in c && In(r, k) ==> LessEq(kvs[idx].k, k)
      else forall k :: Name(ks, k) in c ==> !In(r, k)
    }

    ghost predicate OnLast(c: Content, r: Range) reads this {
      if idx >= 0 then idx < |kvs| && Lookup(c, Name(ks, kvs[idx].k)) == Some(kvs[idx].v) && In(r, kvs[idx].k)
        && forall k :: Name(ks, k) in c && In(r, k) ==> LessEq(k, kvs[idx].k)
      else forall k :: Name(ks, k) in c ==> !In(r, k)
    }

    method Seek(target: Option<Key>) returns (ok: bool)
      requires Valid() && t.Valid()
      modifies this
      ensures Valid() && ok == (idx >= 0) && closed == old(closed)
      ensures !old(Usable()) ==> !ok
      ensures old(Usable()) ==> t.snapshot < |t.m.hist| && seen == t.Sees()
      ensures old(Usable()) ==> OnFirst(seen, if target.None? then All else From(target.value))
    {
      hide Sound, View, Less;
      if closed || t.done { idx := -1; return false; }
      kvs := Materialize(t, ks);
      assert Ascending(kvs);
      hide Enumerates;
      seen := t.Sees();
      var i := 0;
      if target.Some? { i := Search(kvs, target.value, false); }
      idx := if i >= |kvs| then -1 else i;
      ok := idx >= 0;
      Laws();
      FirstFrom(i, if target.None? then All else From(target.value));
    }

    /** The keys that satisfy an upward closed test start at position i. */
    lemma {:induction false} FirstFrom(i: nat, r: Range)
      requires Enumerates(kvs, seen, ks) && i <= |kvs| && idx == if i >= |kvs| then -1 else i
      requires forall x :: 0 <= x < |kvs| ==> (In(r, kvs[x].k) <==> i <= x)
      ensures OnFirst(seen, r)
    {
      if idx >= 0 { assert kvs[idx] in kvs; }
      forall k | Name(ks, k) in seen && In(r, k) ensures idx >= 0 && LessEq(kvs[idx].k, k) {
        var kv := KV(k, seen[Name(ks, k)]);
        assert kv in kvs;
        var x :| 0 <= x < |kvs| && kvs[x] == kv;
      }
    }

    lemma {:induction false} LastTo(i: nat, r: Range)
      requires Enumerates(kvs, seen, ks) && i <= |kvs| && idx == i - 1
      requires forall x :: 0 <= x < |kvs| ==> (In(r, kvs[x].k) <==> x < i)
      ensures OnLast(seen, r)
    {
      if idx >= 0 { assert kvs[idx] in kvs; }
      forall k | Name(ks, k) in seen && In(r, k) ensures idx >= 0 && LessEq(k, kvs[idx].k) {
        var kv := KV(k, seen[Name(ks, k)]);
        assert kv in kvs;
        var x :| 0 <= x < |kvs| && kvs[x] == kv;
      }
    }

    method SeekReverse(target: Option<Key>) returns (ok: bool)
      requires Valid() && t.Valid()
      modifies this
      ensures Valid() && ok == (idx >= 0) && closed == old(closed)
      ensures !old(Usable()) ==> !ok
      ensures old(Usable()) ==> t.snapshot < |t.m.hist| && seen == t.Sees()
      ensures old(Usable()) ==> OnLast(seen, if target.None? then All else UpTo(target.value))
    {
      hide Sound, View, Less;
      if closed || t.done { idx := -1; return false; }
      kvs := Materialize(t, ks);
      assert Ascending(kvs);
      hide Enumerates;
      seen := t.Sees();
      var i := |kvs|;
      if |kvs| > 0 && target.Some? { i := Search(kvs, target.value, true); }
      idx := i - 1;
      ok := idx >= 0;
      Laws();
      LastTo(i, if target.None? then All else UpTo(target.value));
    }

    /** Next moves to the following key of the view. */
    method Next() returns (ok: bool)
      requires Valid()
      modifies this`idx
      ensures Valid() && ok == (idx >= 0)
      ensures !old(Usable()) || old(idx) < 0 ==> !ok
      ensures old(Usable()) && old(idx) >= 0 ==> OnFirst(seen, After(kvs[old(idx)].k))
    {
      if closed || t.done || idx < 0 { idx := -1; return false; }
      var i := idx + 1;
      idx := if i >= |kvs| then -1 else i;
      ok := idx >= 0;
      Laws();
      FirstFrom(i, After(kvs[old(idx)].k));
    }

    method Prev() returns (ok: bool)
      requires Valid()
      modifies this`idx
      ensures Valid() && ok == (idx >= 0)
      ensures !old(Usable()) || old(idx) < 0 ==> !ok
      ensures old(Usable()) && old(idx) >= 0 ==> OnLast(seen, Before(kvs[old(idx)].k))
    {
      if closed || t.done || idx < 0 { idx := -1; return false; }
      var i := idx;
      idx := i - 1;
      ok := idx >= 0;
      Laws();
      LastTo(i, Before(kvs[i].k));
    }
  }
}
