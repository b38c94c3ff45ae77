/**
 * Versioned keys: heads, version chains, and the history of committed maps
 * that they stand for.
 */
module Versions {
  import opened Options
  import opened Bytes

  type Payload = seq<Byte>

  /** A key of one keyspace. */
  datatype Name = Name(ks: Byte, key: Key)

  /** A version is live while its delete timestamp is 0. */
  datatype Version = Version(create: nat, delete: nat, payload: Payload)

  /** A chain record is stored under its name and its create timestamp. */
  datatype ChainId = ChainId(name: Name, create: nat)
  datatype ChainRec = ChainRec(delete: nat, payload: Payload)

  type Content = map<Name, Payload>
  type Heads = map<Name, Version>
  type Chains = map<ChainId, ChainRec>

  predicate Visible(create: nat, delete: nat, snap: nat) { create <= snap && (delete == 0 || snap < delete) }

  function Lookup<K, V>(m: map<K, V>, k: K): Option<V> { if k in m then Some(m[k]) else None }

  /** A buffered write. */
  datatype WriteOp = WriteOp(val: Payload, del: bool, unique: bool, shadowed: bool)

  type Writes = map<Name, WriteOp>

  /** A map with a write set laid over it. */
  function View(base: Content, ws: Writes): Content {
    map n | n in base.Keys + ws.Keys && !(n in ws && ws[n].del) :: if n in ws then ws[n].val else base[n]
  }

  lemma {:induction false} ViewAt(base: Content, ws: Writes, n: Name)
    ensures Lookup(View(base, ws), n) == if n in ws then (if ws[n].del then None else Some(ws[n].val))
      else Lookup(base, n)
  {}

  /** One more write changes one key of the view. */
  lemma {:induction false} ViewStep(base: Content, ws: Writes, n: Name, op: WriteOp)
    ensures View(base, ws[n := op]) == if op.del then View(base, ws) - {n} else View(base, ws)[n := op.val]
  {
    var a, b := View(base, ws[n := op]), if op.del then View(base, ws) - {n} else View(base, ws)[n := op.val];
    assert forall m ::
      Lookup(a, m) ==
      if m in ws[n := op] then (if ws[n := op][m].del then None else Some(ws[n := op][m].val)) else Lookup(base, m);
    assert forall m :: Lookup(b, m) == if m == n then (if op.del then None else Some(op.val))
      else Lookup(View(base, ws), m);
    forall m ensures Lookup(a, m) == Lookup(b, m) {}
    LookupSame(a, b);
  }

  lemma {:induction false} LookupSame<K, V>(a: map<K, V>, b: map<K, V>)
    requires forall k :: Lookup(a, k) == Lookup(b, k)
    ensures a == b
  {
    assert forall k :: k in a <==> Lookup(a, k).Some?;
    assert forall k :: k in b <==> Lookup(b, k).Some?;
    forall k | k in a ensures a[k] == b[k] { assert Lookup(a, k) == Lookup(b, k); }
  }

  /** The part of a write set for some keys. */
  function Part(ws: Writes, names: set<Name>): Writes { map n | n in ws && n in names :: ws[n] }

  lemma {:induction false} CountStep<K, V>(m: map<K, V>, k: K, v: V)
    ensures |m - {k}| == |m| - (if k in m then 1 else 0) && |m[k := v]| == |m| + (if k in m then 0 else 1)
  {
    assert (m - {k}).Keys == m.Keys - {k} && m[k := v].Keys == m.Keys + {k};
    assert |(m - {k}).Keys| == |m - {k}| && |m[k := v].Keys| == |m[k := v]| && |m.Keys| == |m|;
  }

  lemma {:induction false} PartStep(ws: Writes, done: set<Name>, n: Name)
    requires n in ws
    ensures Part(ws, done + {n}) == Part(ws, done)[n := ws[n]]
  {}

  /** The keys a write set changes: a delete of an absent key is no change. */
  function Changed(base: Content, ws: Writes): set<Name> { set n | n in ws && (ws[n].del ==> n in base) }

  /**
   * A store together with its history. `hist[c]` is the content after commit
   * c, `changes[c]` the keys that commit changed and `snaps[c]` the snapshot
   * it read. Snapshots below `low` are no longer readable.
   */
  datatype Db = Db(heads: Heads, chains: Chains, hist: seq<Content>, changes: seq<set<Name>>, snaps: seq<nat>,
    low: nat) {
    ghost function Last(): nat requires hist != [] { |hist| - 1 }
  }

  // ---- the invariant ------------------------------------------------------------

  predicate Timed(v: Version, last: nat) { v.create <= last && (v.delete != 0 ==> v.create < v.delete <= last) }

  /** What a visible version says is true of the history. */
  ghost predicate Truthful(hist: seq<Content>, n: Name, v: Version) {
    forall s :: 0 <= s < |hist| && Visible(v.create, v.delete, s) ==> n in hist[s] && hist[s][n] == v.payload
  }

  function Archived(id: ChainId, r: ChainRec): Version { Version(id.create, r.delete, r.payload) }

  ghost predicate HeadOk(d: Db, n: Name)
    requires d.hist != []
  {
    if n in d.heads then
      var h := d.heads[n];
      && Timed(h, d.Last()) && Truthful(d.hist, n, h)
      && (h.delete != 0 ==> forall s :: h.delete <= s < |d.hist| ==> n !in d.hist[s])
    else forall s :: d.low <= s < |d.hist| ==> n !in d.hist[s]
  }

  ghost predicate ChainOk(d: Db, id: ChainId)
    requires d.hist != [] && id in d.chains
  {
    var v := Archived(id, d.chains[id]);
    && Timed(v, d.Last()) && v.delete != 0 && Truthful(d.hist, id.name, v)
    && id.name in d.heads && v.delete <= d.heads[id.name].create
  }

  /** Some stored version of n is visible at s. */
  ghost predicate Stored(d: Db, n: Name, s: nat) {
    || (n in d.heads && Visible(d.heads[n].create, d.heads[n].delete, s))
    || (exists id :: id in d.chains && id.name == n && Visible(id.create, d.chains[id].delete, s))
  }

  /** Every readable snapshot finds what it should. */
  ghost predicate Complete(d: Db) {
    forall n, s :: d.low <= s < |d.hist| && n in d.hist[s] ==> Stored(d, n, s)
  }

  predicate Stamped(h: Version, c: nat) { c <= h.create || c <= h.delete }

  /** The heads show every change since `low`, and no other. */
  ghost predicate Evidence(d: Db)
    requires |d.changes| == |d.hist|
  {
    && (forall c, n :: d.low < c < |d.hist| && n in d.changes[c] ==> n in d.heads && Stamped(d.heads[n], c))
    && (forall n :: n in d.heads ==>
      InChanges(d, n, d.heads[n].create) && (d.heads[n].delete != 0 ==> InChanges(d, n, d.heads[n].delete)))
  }

  predicate InChanges(d: Db, n: Name, c: nat) { c < |d.changes| && n in d.changes[c] }

  /** A key outside changes[c] keeps its value in commit c. */
  ghost predicate Framed(d: Db)
    requires |d.changes| == |d.hist|
  { forall c, n :: 0 < c < |d.hist| && n !in d.changes[c] ==> Lookup(d.hist[c], n) == Lookup(d.hist[c-1], n) }

  /** First committer wins: a commit read an earlier snapshot, and what happened
      between the two touched none of the keys it changed. */
  ghost predicate FirstCommitterWins(d: Db)
    requires |d.changes| == |d.snaps|
  {
    && (forall j :: 0 < j < |d.snaps| ==> d.snaps[j] < j)
    && forall i, j :: 0 <= i < j < |d.snaps| && d.snaps[j] < i ==> d.changes[i] !! d.changes[j]
  }

  ghost predicate Sound(d: Db) {
    && d.hist != [] && |d.changes| == |d.hist| == |d.snaps| && d.low <= d.Last()
    && (forall n :: HeadOk(d, n)) && (forall id :: id in d.chains ==> ChainOk(d, id))
    && Complete(d) && Evidence(d) && Framed(d) && FirstCommitterWins(d)
  }

  // ---- reading ------------------------------------------------------------------

  /** resolve: what head and chain give at a snapshot. */
  ghost predicate Resolves(heads: Heads, chains: Chains, n: Name, snap: nat, r: Option<Payload>) {
    if n in heads && Visible(heads[n].create, heads[n].delete, snap) then r == Some(heads[n].payload)
    else if n !in heads || (heads[n].create <= snap && heads[n].delete != 0 && heads[n].delete <= snap) then r == None
    else if r.None? then forall id :: id in chains && id.name == n ==> !Visible(id.create, chains[id].delete, snap)
    else
      exists id ::
        && id in chains && id.name == n && Visible(id.create, chains[id].delete, snap)
        && r == Some(chains[id].payload)
  }

  /** Resolving head and chain at a readable snapshot gives the committed map. */
  lemma {:induction false} ResolveIsHistory(d: Db, n: Name, snap: nat, r: Option<Payload>)
    requires Sound(d) && d.low <= snap < |d.hist| && Resolves(d.heads, d.chains, n, snap, r)
    ensures r == Lookup(d.hist[snap], n)
  {
    assert HeadOk(d, n);
    if n in d.hist[snap] { assert Stored(d, n, snap); }
    if n in d.heads && !Visible(d.heads[n].create, d.heads[n].delete, snap) && r.Some? {
      var id :| id in d.chains && id.name == n && Visible(id.create, d.chains[id].delete, snap)
        && r == Some(d.chains[id].payload);
      assert ChainOk(d, id);
      assert Truthful(d.hist, n, Archived(id, d.chains[id]));
    }
  }

  /** A key is live now exactly when its head is. */
  lemma {:induction false} LiveHead(d: Db, n: Name)
    requires Sound(d)
    ensures n in d.hist[d.Last()] <==> n in d.heads && d.heads[n].delete == 0
  {
    assert HeadOk(d, n);
    if n in d.heads && d.heads[n].delete == 0 { assert Visible(d.heads[n].create, 0, d.Last()); }
  }

  /** A commit after snap changed n. */
  ghost predicate ChangedSince(d: Db, n: Name, snap: nat)
    requires |d.changes| == |d.hist|
  { exists c :: snap < c < |d.hist| && n in d.changes[c] }

  /** The head alone tells whether a key changed since a readable snapshot. */
  lemma {:induction false} HeadTells(d: Db, n: Name, snap: nat)
    requires Sound(d) && d.low <= snap
    ensures ChangedSince(d, n, snap) <==>
      n in d.heads && (d.heads[n].create > snap || (d.heads[n].delete != 0 && d.heads[n].delete > snap))
  {
    assert HeadOk(d, n);
    if n in d.heads && d.heads[n].create > snap { assert InChanges(d, n, d.heads[n].create); }
    if n in d.heads && d.heads[n].delete > snap { assert InChanges(d, n, d.heads[n].delete); }
  }

  // ---- publishing -----------------------------------------------------------------

  function HeadAfter(h: Option<Version>, op: WriteOp, cts: nat): Option<Version> {
    if !op.del then Some(Version(cts, 0, op.val))
    else if h.Some? && h.value.delete == 0 then Some(h.value.(delete := cts))
    else h
  }

  function ChainAfter(h: Option<Version>, op: WriteOp, cts: nat): Option<Version> {
    if op.del || h.None? then None
    else Some(h.value.(delete := if h.value.delete == 0 then cts else h.value.delete))
  }

  /** The store after publish. */
  ghost predicate Published(heads: Heads, chains: Chains, ws: Writes, cts: nat, heads': Heads, chains': Chains) {
    && (forall n :: Lookup(heads', n) == if n in ws then HeadAfter(Lookup(heads, n), ws[n], cts) else Lookup(heads, n))
    && (forall id :: Lookup(chains', id) == ChainWritten(heads, chains, ws, cts, id))
  }

  function ChainWritten(heads: Heads, chains: Chains, ws: Writes, cts: nat, id: ChainId): Option<ChainRec> {
    var n := id.name;
    if n in ws && n in heads && !ws[n].del && heads[n].create == id.create then
      var v := ChainAfter(Some(heads[n]), ws[n], cts).value;
      Some(ChainRec(v.delete, v.payload))
    else Lookup(chains, id)
  }

  /** The history after a commit that passed validation. */
  ghost predicate Advanced(d: Db, ws: Writes, snap: nat, d': Db)
    requires Sound(d)
  {
    && Published(d.heads, d.chains, ws, |d.hist|, d'.heads, d'.chains)
    && d'.hist == d.hist + [View(d.hist[d.Last()], ws)] && d'.changes == d.changes + [Changed(d.hist[d.Last()], ws)]
    && d'.snaps == d.snaps + [snap] && snap <= d.Last() && d'.low == d.low
  }

  lemma {:induction false} HeadAdvances(d: Db, ws: Writes, snap: nat, d': Db, n: Name)
    requires Sound(d) && Advanced(d, ws, snap, d')
    ensures HeadOk(d', n)
  {
    hide Complete, Evidence, Framed, FirstCommitterWins;
    assert HeadOk(d, n);
    LiveHead(d, n);
    var prev, last := d.hist[d.Last()], |d.hist|;
    assert d'.hist[last] == View(prev, ws);
    assert forall s :: 0 <= s < last ==> d'.hist[s] == d.hist[s];
    assert Lookup(d'.heads, n) == if n in ws then HeadAfter(Lookup(d.heads, n), ws[n], last) else Lookup(d.heads, n);
    if n in d.heads && d.heads[n].delete == 0 { assert Visible(d.heads[n].create, 0, d.Last()); }
  }

  lemma {:induction false} ChainAdvances(d: Db, ws: Writes, snap: nat, d': Db, id: ChainId)
    requires Sound(d) && Advanced(d, ws, snap, d') && id in d'.chains
    ensures ChainOk(d', id)
  {
    hide Complete, Evidence, Framed, FirstCommitterWins;
    var last, n := |d.hist|, id.name;
    assert forall s :: 0 <= s < last ==> d'.hist[s] == d.hist[s];
    assert HeadOk(d, n);
    assert Lookup(d'.chains, id) == ChainWritten(d.heads, d.chains, ws, last, id);
    assert Lookup(d'.heads, n) == if n in ws then HeadAfter(Lookup(d.heads, n), ws[n], last) else Lookup(d.heads, n);
    if n in ws && n in d.heads && !ws[n].del && d.heads[n].create == id.create {
    } else {
      assert ChainOk(d, id);
    }
  }

  lemma {:induction false} StoredAdvances(d: Db, ws: Writes, snap: nat, d': Db, n: Name, s: nat)
    requires Sound(d) && Advanced(d, ws, snap, d') && d.low <= s < |d'.hist| && n in d'.hist[s]
    ensures Stored(d', n, s)
  {
    hide Evidence, Framed, FirstCommitterWins;
    var last := |d.hist|;
    assert HeadOk(d, n);
    assert Lookup(d'.heads, n) == if n in ws then HeadAfter(Lookup(d.heads, n), ws[n], last) else Lookup(d.heads, n);
    if s == last {
      LiveHead(d, n);
    } else {
      assert d'.hist[s] == d.hist[s] && Stored(d, n, s);
      if n in d.heads && Visible(d.heads[n].create, d.heads[n].delete, s) {
        var id := ChainId(n, d.heads[n].create);
        assert Lookup(d'.chains, id) == ChainWritten(d.heads, d.chains, ws, last, id);
      } else {
        var id :| id in d.chains && id.name == n && Visible(id.create, d.chains[id].delete, s);
        assert ChainOk(d, id);
        assert Lookup(d'.chains, id) == ChainWritten(d.heads, d.chains, ws, last, id);
      }
    }
  }

  lemma {:induction false} EvidenceAdvances(d: Db, ws: Writes, snap: nat, d': Db)
    requires Sound(d) && Advanced(d, ws, snap, d')
    ensures |d'.changes| == |d'.hist| && Evidence(d')
  {
    hide Complete, Framed, FirstCommitterWins;
    var last := |d.hist|;
    forall c, n | d'.low < c < |d'.hist| && n in d'.changes[c] ensures n in d'.heads && Stamped(d'.heads[n], c) {
      assert Lookup(d'.heads, n) == if n in ws then HeadAfter(Lookup(d.heads, n), ws[n], last) else Lookup(d.heads, n);
      LiveHead(d, n);
      if c < last { assert d'.changes[c] == d.changes[c]; }
    }
    forall n | n in d'.heads
      ensures InChanges(d', n, d'.heads[n].create) && (d'.heads[n].delete != 0 ==> InChanges(d', n, d'.heads[n].delete))
    {
      assert Lookup(d'.heads, n) == if n in ws then HeadAfter(Lookup(d.heads, n), ws[n], last) else Lookup(d.heads, n);
      LiveHead(d, n);
      assert forall c :: InChanges(d, n, c) ==> InChanges(d', n, c);
    }
  }

  lemma {:induction false} FrameAdvances(d: Db, ws: Writes, snap: nat, d': Db)
    requires Sound(d) && Advanced(d, ws, snap, d')
    ensures |d'.changes| == |d'.hist| && Framed(d')
  {
    hide HeadOk, ChainOk, Complete, Evidence, FirstCommitterWins, Published;
    forall c, n | 0 < c < |d'.hist| && n !in d'.changes[c] ensures Lookup(d'.hist[c], n) == Lookup(d'.hist[c-1], n) {
      if c < |d.hist| { assert n !in d.changes[c]; }
    }
  }

  lemma {:induction false} WinnerAdvances(d: Db, ws: Writes, snap: nat, d': Db)
    requires Sound(d) && Advanced(d, ws, snap, d') && forall n :: n in ws ==> !ChangedSince(d, n, snap)
    ensures |d'.changes| == |d'.snaps| && FirstCommitterWins(d')
  {
    forall i, j | 0 <= i < j < |d'.snaps| && d'.snaps[j] < i ensures d'.changes[i] !! d'.changes[j] {
      if j < |d.snaps| { assert d.changes[i] !! d.changes[j]; }
      else {
        forall n | n in d'.changes[i] && n in d'.changes[j] ensures false {
          assert n in ws && ChangedSince(d, n, snap);
        }
      }
    }
  }

  /** Publishing a validated write set keeps everything and appends one map to the history. */
  lemma {:induction false} PublishKeeps(d: Db, ws: Writes, snap: nat, d': Db)
    requires Sound(d) && Advanced(d, ws, snap, d') && forall n :: n in ws ==> !ChangedSince(d, n, snap)
    ensures Sound(d')
  {
    hide HeadOk, ChainOk, Complete, Evidence, Framed, FirstCommitterWins;
    forall n ensures HeadOk(d', n) { HeadAdvances(d, ws, snap, d', n); }
    forall id | id in d'.chains ensures ChainOk(d', id) { ChainAdvances(d, ws, snap, d', id); }
    CompleteAdvances(d, ws, snap, d');
    EvidenceAdvances(d, ws, snap, d');
    FrameAdvances(d, ws, snap, d');
    WinnerAdvances(d, ws, snap, d');
  }

  lemma {:induction false} CompleteAdvances(d: Db, ws: Writes, snap: nat, d': Db)
    requires Sound(d) && Advanced(d, ws, snap, d')
    ensures Complete(d')
  {
    forall n, s | d'.low <= s < |d'.hist| && n in d'.hist[s] ensures Stored(d', n, s) {
      StoredAdvances(d, ws, snap, d', n, s);
    }
  }

  // ---- vacuum ---------------------------------------------------------------------

  predicate Dead(delete: nat, oldest: nat) { delete != 0 && delete <= oldest }

  /** The store after a vacuum of some keyspaces: dead versions are gone. */
  ghost predicate Vacuumed(heads: Heads, chains: Chains, spaces: set<Byte>, oldest: nat, heads': Heads,
                           chains': Chains) {
    && heads' == (map n | n in heads && !(n.ks in spaces && Dead(heads[n].delete, oldest)) :: heads[n])
    && chains' == (map id | id in chains && !Dead(chains[id].delete, oldest) :: chains[id])
  }

  lemma {:induction false} DeadUnseen(v: Version, oldest: nat, last: nat)
    requires Timed(v, last)
    ensures Dead(v.delete, oldest) <==> forall s: nat :: oldest <= s ==> !Visible(v.create, v.delete, s)
  {
    if !Dead(v.delete, oldest) {
      var s := if v.create <= oldest then oldest else v.create;
      assert oldest <= s && Visible(v.create, v.delete, s);
    }
  }

  /** Vacuum removes a version if and only if no snapshot from `oldest` on sees it. */
  lemma {:induction false} VacuumExact(d: Db, spaces: set<Byte>, oldest: nat, heads': Heads, chains': Chains)
    requires Sound(d) && Vacuumed(d.heads, d.chains, spaces, oldest, heads', chains')
    ensures forall n :: n in heads' <==> n in d.heads && (n.ks in spaces ==>
      exists s: nat :: oldest <= s && Visible(d.heads[n].create, d.heads[n].delete, s))
    ensures forall id :: id in chains' <==>
      id in d.chains && exists s: nat :: oldest <= s && Visible(id.create, d.chains[id].delete, s)
    ensures forall n :: n in heads' ==> heads'[n] == d.heads[n]
    ensures forall id :: id in chains' ==> chains'[id] == d.chains[id]
  {
    hide Complete, Evidence, Framed, FirstCommitterWins, Truthful, Visible, Dead;
    forall n | n in d.heads ensures Dead(d.heads[n].delete, oldest) <==>
      forall s: nat :: oldest <= s ==> !Visible(d.heads[n].create, d.heads[n].delete, s)
    {
      assert HeadOk(d, n);
      DeadUnseen(d.heads[n], oldest, d.Last());
    }
    forall id | id in d.chains ensures Dead(d.chains[id].delete, oldest) <==>
      forall s: nat :: oldest <= s ==> !Visible(id.create, d.chains[id].delete, s)
    {
      assert ChainOk(d, id);
      DeadUnseen(Archived(id, d.chains[id]), oldest, d.Last());
    }
    hide Timed;
  }

  /** Vacuum loses nothing that a snapshot from `oldest` on can read, nor the
      evidence that validation needs. */
  lemma {:induction false} VacuumKeeps(d: Db, spaces: set<Byte>, oldest: nat, d': Db)
    requires Sound(d) && d.low <= oldest <= d.Last() && Vacuumed(d.heads, d.chains, spaces, oldest, d'.heads, d'.chains)
    requires d' == d.(heads := d'.heads, chains := d'.chains, low := oldest)
    ensures Sound(d')
  {
    hide Framed, FirstCommitterWins;
    forall n ensures HeadOk(d', n) { assert HeadOk(d, n); }
    forall id | id in d'.chains ensures ChainOk(d', id) { assert ChainOk(d, id); assert HeadOk(d, id.name); }
    forall n, s | d'.low <= s < |d'.hist| && n in d'.hist[s] ensures Stored(d', n, s) {
      assert Stored(d, n, s);
      assert HeadOk(d, n);
    }
    assert Evidence(d') by {
      hide HeadOk, ChainOk, Complete;
      forall c, n | oldest < c < |d.hist| && n in d.changes[c] ensures n in d'.heads && Stamped(d'.heads[n], c) {
        HeadTimed(d, n);
      }
      forall n | n in d'.heads
        ensures InChanges(d', n, d'.heads[n].create)
          && (d'.heads[n].delete != 0 ==> InChanges(d', n, d'.heads[n].delete))
      { assert InChanges(d, n,
        d.heads[n].create); if d.heads[n].delete != 0 { assert InChanges(d, n, d.heads[n].delete); } }
    }
    assert Framed(d') && FirstCommitterWins(d') by { FrameSame(d, d'); }
  }

  lemma {:induction false} HeadTimed(d: Db, n: Name)
    requires Sound(d) && n in d.heads
    ensures Timed(d.heads[n], d.Last())
  { assert HeadOk(d, n); }

  lemma {:induction false} FrameSame(d: Db, d': Db)
    requires Sound(d) && d'.hist == d.hist && d'.changes == d.changes && d'.snaps == d.snaps
    ensures Framed(d') && FirstCommitterWins(d')
  {}

  // ---- what snapshot isolation means for a committed transaction --------------------

  /** A key not changed after snap still has the value it had at snap. */
  lemma {:induction false} Unchanged(d: Db, n: Name, a: nat, b: nat)
    requires Sound(d) && a <= b < |d.hist| && forall c :: a < c <= b ==> n !in d.changes[c]
    ensures Lookup(d.hist[b], n) == Lookup(d.hist[a], n)
    decreases b - a
  {
    if a < b {
      assert n !in d.changes[b];
      Unchanged(d, n, a, b - 1);
    }
  }

  /** No lost update: what a commit overwrote is what its snapshot showed. */
  lemma {:induction false} NoLostUpdate(d: Db, n: Name, c: nat)
    requires Sound(d) && 0 < c < |d.hist| && n in d.changes[c]
    ensures d.snaps[c] < c && Lookup(d.hist[c-1], n) == Lookup(d.hist[d.snaps[c]], n)
  {
    forall i | d.snaps[c] < i <= c - 1 ensures n !in d.changes[i] { assert d.changes[i] !! d.changes[c]; }
    Unchanged(d, n, d.snaps[c], c - 1);
  }
}
