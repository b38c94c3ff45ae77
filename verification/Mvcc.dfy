/** The transaction manager: snapshots, first-committer-wins commits, savepoints and vacuum. */
module Mvcc {
  import opened Options
  import opened Bytes
  import opened Versions
  import opened TxCalls

  datatype Outcome = Ok | Done | Closed | ReadOnly | Reserved | Exhausted | ConstraintViolation | Conflict
    | InvalidArgument

  const KSVERSION: Byte := 0x56
  /** N E O I L T P C */
  const USER_KEYSPACES: set<Byte> := {0x4E, 0x45, 0x4F, 0x49, 0x4C, 0x54, 0x50, 0x43}

  /** A cap of zero or less is no cap. */
  predicate AtCap(count: nat, cap: int) { cap > 0 && count >= cap }

  function Pairs(chains: Chains, n: Name): set<ChainId> { set id | id in chains && id.name == n }

  /** loadChain: the archived versions of one key. */
  method LoadChain(chains: Chains, n: Name) returns (out: seq<Version>)
    ensures forall v :: v in out <==> exists id :: id in chains && id.name == n && Archived(id, chains[id]) == v
  {
    out := [];
    var todo := Pairs(chains, n);
    while todo != {}
      invariant todo <= Pairs(chains, n)
      invariant forall id :: id in Pairs(chains, n) - todo ==> Archived(id, chains[id]) in out
      invariant forall v :: v in out ==> exists id :: id in chains && id.name == n && Archived(id, chains[id]) == v
    {
      var id :| id in todo;
      out := out + [Archived(id, chains[id])];
      todo := todo - {id};
    }
  }

  /** visiblePayload after its two shortcuts: the newest visible version of a chain. */
  method NewestVisible(chain: seq<Version>, snap: nat) returns (best: Option<Version>)
    ensures best.None? <==> forall v :: v in chain ==> !Visible(v.create, v.delete, snap)
    ensures best.Some? ==> best.value in chain && Visible(best.value.create, best.value.delete, snap)
    ensures best.Some? ==> forall v :: v in chain && Visible(v.create, v.delete, snap) ==> v.create <= best.value.create
  {
    best := None;
    for i := 0 to |chain|
      invariant best.None? <==> forall v :: v in chain[..i] ==> !Visible(v.create, v.delete, snap)
      invariant best.Some? ==> best.value in chain[..i] && Visible(best.value.create, best.value.delete, snap)
      invariant best.Some? ==>
        forall v :: v in chain[..i] && Visible(v.create, v.delete, snap) ==> v.create <= best.value.create
    {
      var v := chain[i];
      assert chain[..i+1] == chain[..i] + [v];
      if Visible(v.create, v.delete, snap) && (best.None? || v.create > best.value.create) { best := Some(v); }
    }
    assert chain[..|chain|] == chain;
  }

  /** resolve. */
  method Resolve(heads: Heads, chains: Chains, n: Name, snap: nat) returns (r: Option<Payload>)
    ensures Resolves(heads, chains, n, snap, r)
  {
    var h := Lookup(heads, n);
    if h.Some? && Visible(h.value.create, h.value.delete, snap) { return Some(h.value.payload); }
    if h.None? || (h.value.create <= snap && h.value.delete != 0 && h.value.delete <= snap) { return None; }
    var chain := LoadChain(chains, n);
    var best := NewestVisible(chain, snap);
    if best.None? {
      forall id | id in chains && id.name == n ensures !Visible(id.create, chains[id].delete, snap) {
        assert Archived(id, chains[id]) in chain;
      }
      return None;
    }
    return Some(best.value.payload);
  }

  /** A key that must be unique and is not, from the write set and from the calls. */
  ghost predicate Clash(d: Db, ws: Writes, snap: nat, n: Name)
    requires d.hist != [] && |d.changes| == |d.hist|
  {
    n in ws && ws[n].unique && (ChangedSince(d, n, snap) || (!ws[n].del && !ws[n].shadowed && n in d.hist[d.Last()]))
  }

  lemma {:induction false} ClashClaims(d: Db, calls: seq<Call>, ws: Writes, snap: nat, n: Name)
    requires Sound(d) && Recorded(calls, ws)
    ensures Clash(d, ws, snap, n) <==>
      Claims(calls, n) && (ChangedSince(d, n, snap) || (n in d.hist[d.Last()] && !Removed(calls, n)))
  {
    hide Sound, ChangedSince;
    if n in ws { FlagsFit(calls, n); } else { NeverCalled(calls, n); }
  }

  /** A key that was written as unique and never deleted, and that was there at the snapshot. */
  ghost predicate Taken(calls: seq<Call>, base: Content, n: Name) {
    n in base && Deleted(n) !in calls && exists c :: c in calls && c.Written? && c.n == n && c.unique
  }

  lemma {:induction false} TakenClashes(d: Db, calls: seq<Call>, ws: Writes, snap: nat, n: Name)
    requires Sound(d) && Recorded(calls, ws) && snap <= d.Last() && (n in ws ==> !ChangedSince(d, n, snap))
    ensures Taken(calls, d.hist[snap], n) <==> Clash(d, ws, snap, n)
    ensures Polite(calls, d.hist[snap]) ==> !Clash(d, ws, snap, n)
  {
    ClashClaims(d, calls, ws, snap, n);
    if Claims(calls, n) || Taken(calls, d.hist[snap], n) {
      assert Called(calls, n) && n in ws;
      Unchanged(d, n, snap, d.Last());
      if Taken(calls, d.hist[snap], n) { TakenClaims(calls, d.hist[snap], n); }
      if Polite(calls, d.hist[snap]) && Claims(calls, n) && n in d.hist[snap] { PoliteRemoves(calls, d.hist[snap], n); }
    }
  }

  lemma {:induction false} TakenClaims(calls: seq<Call>, base: Content, n: Name)
    requires Taken(calls, base, n)
    ensures Claims(calls, n)
  {
    var c :| c in calls && c.Written? && c.n == n && c.unique;
    var j :| 0 <= j < |calls| && calls[j] == c;
    assert Deleted(n) !in calls[j..];
  }

  lemma {:induction false} SoundShape(d: Db)
    requires Sound(d)
    ensures d.hist != [] && |d.changes| == |d.hist|
  {}

  lemma {:induction false} Verdicts(d: Db, calls: seq<Call>, ws: Writes, snap: nat)
    requires d.hist != [] && |d.changes| == |d.hist| && Sound(d) && Recorded(calls, ws) && snap <= d.Last()
    ensures (exists n :: Clash(d, ws, snap, n)) <==>
      exists n :: Claims(calls, n) && (ChangedSince(d, n, snap) || (n in d.hist[d.Last()] && !Removed(calls, n)))
    ensures (forall n :: n in ws ==> !ChangedSince(d, n, snap)) ==>
      && ((exists n :: Clash(d, ws, snap, n)) <==> exists n :: Taken(calls, d.hist[snap], n))
      && (Polite(calls, d.hist[snap]) ==> forall n :: !Clash(d, ws, snap, n))
  {
    hide Sound, ChangedSince, Clash, Taken, Recorded, Polite, Claims;
    forall n ensures Clash(d, ws, snap, n) <==>
      Claims(calls, n) && (ChangedSince(d, n, snap) || (n in d.hist[d.Last()] && !Removed(calls, n)))
    { ClashClaims(d, calls, ws, snap, n); }
    if forall n :: n in ws ==> !ChangedSince(d, n, snap) {
      forall n ensures (Taken(calls, d.hist[snap], n) <==> Clash(d, ws, snap, n))
        && (Polite(calls, d.hist[snap]) ==> !Clash(d, ws, snap, n))
      { TakenClashes(d, calls, ws, snap, n); }
    }
  }

  /** validate, over the heads only. */
  method Validate(ghost d: Db, heads: Heads, snap: nat, ws: Writes) returns (r: Outcome)
    requires Sound(d) && d.heads == heads && d.low <= snap <= d.Last()
    ensures r == Ok || r == Conflict || r == ConstraintViolation
    ensures r == ConstraintViolation <==> exists n :: Clash(d, ws, snap, n)
    ensures r == Ok ==> forall n :: n in ws ==> !ChangedSince(d, n, snap)
    ensures r == Conflict ==> exists n :: n in ws && ChangedSince(d, n, snap)
  {
    r := Ok;
    var todo := ws.Keys;
    while todo != {}
      invariant todo <= ws.Keys && (r == Ok || r == Conflict)
      invariant forall n :: n in ws.Keys - todo ==> !Clash(d, ws, snap, n)
      invariant r == Ok ==> forall n :: n in ws.Keys - todo ==> !ChangedSince(d, n, snap)
      invariant r == Conflict ==> exists n :: n in ws && ChangedSince(d, n, snap)
    {
      var n :| n in todo;
      todo := todo - {n};
      HeadTells(d, n, snap);
      LiveHead(d, n);
      if n in heads {
        var h, op := heads[n], ws[n];
        if h.create > snap || (h.delete != 0 && h.delete > snap) {
          if op.unique {
            assert Clash(d, ws, snap, n);
            return ConstraintViolation;
          }
          r := Conflict;
        } else if op.unique && !op.del && h.delete == 0 && !op.shadowed {
          assert Clash(d, ws, snap, n);
          return ConstraintViolation;
        }
      }
    }
  }

  function HeadsWith(heads: Heads, n: Name, op: WriteOp, cts: nat): Heads {
    var after := HeadAfter(Lookup(heads, n), op, cts);
    if after.Some? then heads[n := after.value] else heads
  }

  function ChainsWith(heads: Heads, chains: Chains, n: Name, op: WriteOp, cts: nat): Chains {
    if op.del || n !in heads then chains
    else chains[ChainId(n, heads[n].create) :=
      ChainRec(if heads[n].delete == 0 then cts else heads[n].delete, heads[n].payload)]
  }

  /** The store after publishing. */
  lemma {:induction false} PublishedDb(d: Db, ws: Writes, snap: nat, heads': Heads, chains': Chains) returns (d': Db)
    requires Sound(d) && snap <= d.Last() && Published(d.heads, d.chains, ws, |d.hist|, heads', chains')
    requires forall n :: n in ws ==> !ChangedSince(d, n, snap)
    ensures Sound(d') && d'.heads == heads' && d'.chains == chains' && d'.low == d.low
    ensures d'.hist == d.hist + [View(d.hist[d.Last()], ws)] && d'.snaps == d.snaps + [snap]
    ensures d'.changes == d.changes + [Changed(d.hist[d.Last()], ws)]
  {
    hide HeadOk, ChainOk, Complete, Evidence, Framed, FirstCommitterWins, Published, View, Changed, ChangedSince;
    var last := d.hist[d.Last()];
    d' := Db(heads', chains', d.hist + [View(last, ws)], d.changes + [Changed(last, ws)], d.snaps + [snap], d.low);
    PublishKeeps(d, ws, snap, d');
  }

  /** The body of publish's loop. */
  method PublishWrite(heads: Heads, chains: Chains, cts: nat, n: Name, op: WriteOp)
    returns (heads': Heads, chains': Chains, delta: int)
    ensures heads' == HeadsWith(heads, n, op, cts) && chains' == ChainsWith(heads, chains, n, op, cts)
    ensures delta == (if op.del then 0 else 1) - (if n in heads && heads[n].delete == 0 then 1 else 0)
  {
    heads', chains', delta := heads, chains, 0;
    var h := Lookup(heads, n);
    var wasLive := h.Some? && h.value.delete == 0;
    if op.del {
      if wasLive {
        heads' := heads[n := h.value.(delete := cts)];
        delta := -1;
      } else if h.Some? {
        assert heads[n := h.value] == heads;
      }
      return;
    }
    if h.Some? {
      var del := if h.value.delete == 0 then cts else h.value.delete;
      chains' := chains[ChainId(n, h.value.create) := ChainRec(del, h.value.payload)];
    }
    heads' := heads[n := Version(cts, 0, op.val)];
    if !wasLive { delta := 1; }
  }

  /** publish: new heads, archived heads, and the change in the number of live keys. */
  method Publish(ghost d: Db, heads: Heads, chains: Chains, cts: nat, ws: Writes)
    returns (heads': Heads, chains': Chains, delta: int)
    requires Sound(d) && d.hist != [] && d.heads == heads && d.chains == chains
    ensures Published(heads, chains, ws, cts, heads', chains')
    ensures |View(d.hist[d.Last()], ws)| == |d.hist[d.Last()]| + delta
  {
    hide Sound, Published, View, Part, HeadsWith, ChainsWith;
    heads', chains', delta := heads, chains, 0;
    var todo := ws.Keys;
    ghost var base := d.hist[d.Last()];
    PublishNone(base, heads, chains, ws, cts);
    assert ws.Keys - todo == {};
    while todo != {}
      invariant todo <= ws.Keys
      invariant Published(heads, chains, Part(ws, ws.Keys - todo), cts, heads', chains')
      invariant |View(base, Part(ws, ws.Keys - todo))| == |base| + delta
    {
      var n :| n in todo;
      ghost var done := ws.Keys - todo;
      todo := todo - {n};
      assert ws.Keys - todo == done + {n};
      LiveHead(d, n);
      LiveStep(base, ws, done, n);
      PublishOne(heads, chains, ws, done, n, cts, heads', chains');
      var step: int;
      heads', chains', step := PublishWrite(heads', chains', cts, n, ws[n]);
      delta := delta + step;
    }
    assert ws.Keys - {} == ws.Keys;
  }

  lemma {:induction false} PublishNone(base: Content, heads: Heads, chains: Chains, ws: Writes, cts: nat)
    ensures Published(heads, chains, Part(ws, {}), cts, heads, chains) && View(base, Part(ws, {})) == base
      && Part(ws, ws.Keys) == ws
  {}

  /** One more write of a write set changes one key of the view. */
  lemma {:induction false} LiveStep(base: Content, ws: Writes, done: set<Name>, n: Name)
    requires n in ws && n !in done
    ensures var v, v' := View(base, Part(ws, done)), View(base, Part(ws, done + {n}));
      && (n in v <==> n in base)
      && |v'| == |v| + (if ws[n].del then 0 else 1) - (if n in base then 1 else 0)
  {
    hide View;
    var v := View(base, Part(ws, done));
    ViewAt(base, Part(ws, done), n);
    assert n in v <==> n in base;
    PartStep(ws, done, n);
    hide Part;
    ViewStep(base, Part(ws, done), n, ws[n]);
    CountStep(v, n, ws[n].val);
  }

  /** The store after one more write, from the store before it. */
  lemma {:induction false} PublishOne(heads: Heads, chains: Chains, ws: Writes, done: set<Name>, n: Name, cts: nat,
                                      heads': Heads, chains': Chains)
    requires n in ws && n !in done && Published(heads, chains, Part(ws, done), cts, heads', chains')
    ensures Lookup(heads', n) == Lookup(heads, n)
    ensures Published(heads, chains, Part(ws, done + {n}), cts, HeadsWith(heads', n, ws[n], cts),
      ChainsWith(heads', chains', n, ws[n], cts))
  {
    var part, op := Part(ws, done), ws[n];
    assert n !in part && Lookup(heads', n) == Lookup(heads, n);
    var heads2, chains2 := HeadsWith(heads', n, op, cts), ChainsWith(heads', chains', n, op, cts);
    var part2 := Part(ws, done + {n});
    forall m ensures Lookup(heads2, m) == if m in part2 then HeadAfter(Lookup(heads, m), part2[m], cts)
      else Lookup(heads, m) {
      assert Lookup(heads', m) == if m in part then HeadAfter(Lookup(heads, m), part[m], cts) else Lookup(heads, m);
    }
    forall id ensures Lookup(chains2, id) == ChainWritten(heads, chains, part2, cts, id) {
      assert Lookup(chains', id) == ChainWritten(heads, chains, part, cts, id);
    }
  }

  /** The delete loop of Vacuum. */
  method DropAll<K(==), V>(m: map<K, V>, dead: set<K>) returns (m': map<K, V>)
    requires dead <= m.Keys
    ensures m' == (map k | k in m && k !in dead :: m[k]) && |m'| == |m| - |dead|
  {
    m' := m;
    var todo := dead;
    while todo != {}
      invariant todo <= dead && m' == (map k | k in m && k !in dead - todo :: m[k]) && |m'| == |m| - |dead| + |todo|
    {
      var k :| k in todo;
      assert (m' - {k}).Keys == m'.Keys - {k};
      m' := m' - {k};
      todo := todo - {k};
    }
  }

  /** The two passes of Vacuum: collect the dead versions, then delete them. */
  method DropDead(heads: Heads, chains: Chains, spaces: set<Byte>, oldest: nat)
    returns (heads': Heads, chains': Chains, n: nat)
    ensures Vacuumed(heads, chains, spaces, oldest, heads', chains')
    ensures n == |heads| - |heads'| + |chains| - |chains'|
  {
    var deadHeads := set x | x in heads && x.ks in spaces && Dead(heads[x].delete, oldest);
    var deadChains := set id | id in chains && Dead(chains[id].delete, oldest);
    heads' := DropAll(heads, deadHeads);
    chains' := DropAll(chains, deadChains);
    n := |deadHeads| + |deadChains|;
  }

  // ---- the manager ------------------------------------------------------------------

  class Manager {
    var heads: Heads
    var chains: Chains
    var commitTS: nat
    var nextTxnID: nat
    var liveKeys: int
    var open: set<Tx>
    var spaces: set<Byte>
    var reclaimed: nat
    var closed: bool
    const maxOpen: int
    const maxWrite: int

    ghost var hist: seq<Content>
    ghost var changes: seq<set<Name>>
    ghost var snaps: seq<nat>
    ghost var low: nat

    ghost function State(): Db reads this { Db(heads, chains, hist, changes, snaps, low) }

    /** The store stands for its history, and every open snapshot is readable. */
    ghost predicate Valid() reads this, open {
      && Sound(State()) && low <= commitTS && commitTS + 1 == |hist| && liveKeys == |hist[commitTS]|
      && forall t :: t in open ==> t.m == this && !t.done && low <= t.snapshot <= commitTS
    }

    /** A call that leaves the store and its history alone. */
    twostate predicate SameStore() reads this {
      heads == old(heads) && chains == old(chains) && commitTS == old(commitTS) && hist == old(hist)
      && changes == old(changes) && snaps == old(snaps) && low == old(low) && liveKeys == old(liveKeys)
    }

    /** Open on a database of raw values: each becomes a head created at timestamp 1. */
    constructor (raw: Content, maxOpen: int, maxWrite: int)
      requires forall n :: n in raw ==> n.ks in USER_KEYSPACES
      ensures Valid() && open == {} && !closed
      ensures hist[commitTS] == raw && commitTS == if raw == map[] then 0 else 1
    {
      this.maxOpen := if maxOpen == 0 then 1024 else maxOpen;
      this.maxWrite := if maxWrite == 0 then 100_000 else maxWrite;
      heads := map n | n in raw :: Version(1, 0, raw[n]);
      chains := map[];
      open, closed, reclaimed := {}, false, 0;
      spaces := USER_KEYSPACES;
      commitTS := if raw == map[] then 0 else 1;
      nextTxnID := if raw == map[] then 1 else 2;
      liveKeys := |raw|;
      hist := if raw == map[] then [map[]] else [map[], raw];
      changes := if raw == map[] then [{}] else [{}, raw.Keys];
      snaps := if raw == map[] then [0] else [0, 0];
      low := 0;
    }

    method Begin(ro: bool) returns (r: Outcome, t: Tx?)
      requires Valid()
      modifies this`nextTxnID, this`open
      ensures Valid() && SameStore()
      ensures r == if closed then Closed else if maxOpen > 0 && |old(open)| >= maxOpen then Exhausted else Ok
      ensures r != Ok ==> t == null && open == old(open) && nextTxnID == old(nextTxnID)
      ensures r == Ok ==>
        t != null && fresh(t) && open == old(open) + {t} && nextTxnID == old(nextTxnID) + 1 && t.id == old(nextTxnID)
      ensures r == Ok ==>
        t.m == this && t.snapshot == commitTS && t.ro == ro && !t.done && t.writes == map[] && t.marks == []
          && t.calls == [] && t.Valid()
    {
      hide Sound;
      if closed { return Closed, null; }
      if AtCap(|open|, maxOpen) { return Exhausted, null; }
      t := new Tx(this, nextTxnID, commitTS, ro);
      nextTxnID := nextTxnID + 1;
      open := open + {t};
      r := Ok;
    }

    /** readAt: the committed map at a snapshot. */
    method ReadAt(n: Name, snap: nat) returns (r: Option<Payload>)
      requires Valid() && low <= snap <= commitTS
      ensures r == Lookup(hist[snap], n)
    {
      r := Resolve(heads, chains, n, snap);
      ResolveIsHistory(State(), n, snap, r);
    }

    /** The part of Commit after validation: publish at the next timestamp. */
    method Advance(ws: Writes, snap: nat)
      requires Valid() && snap <= commitTS && forall n :: n in ws ==> !ChangedSince(State(), n, snap)
      modifies this`heads, this`chains, this`commitTS, this`liveKeys, this`hist, this`changes, this`snaps
      ensures Valid() && commitTS == old(commitTS) + 1
      ensures hist == old(hist) + [View(old(hist)[old(commitTS)], ws)]
      ensures changes == old(changes) + [Changed(old(hist)[old(commitTS)], ws)] && snaps == old(snaps) + [snap]
    {
      hide Sound, View, Published, ChangedSince, Changed;
      ghost var d := State();
      var heads', chains', delta := Publish(d, heads, chains, commitTS + 1, ws);
      ghost var d' := PublishedDb(d, ws, snap, heads', chains');
      heads, chains, commitTS, liveKeys := heads', chains', commitTS + 1, liveKeys + delta;
      hist, changes, snaps := d'.hist, d'.changes, d'.snaps;
    }

    /** Crash aborts every open transaction. */
    method Crash() returns (r: Outcome)
      requires Valid()
      modifies this`open, open
      ensures Valid() && SameStore()
      ensures r == if closed then Closed else Ok
      ensures r == Ok ==> open == {} && forall t :: t in old(open) ==> t.done && t.writes == map[]
      ensures r != Ok ==>
        open == old(open) && forall t :: t in old(open) ==>
          !t.done && t.writes == old(t.writes) && t.marks == old(t.marks)
    {
      if closed { return Closed; }
      AbortAll(open);
      open := {};
      r := Ok;
    }

    /** Close aborts every open transaction and refuses new ones. */
    method Close()
      requires Valid()
      modifies this`open, this`closed, open
      ensures Valid() && SameStore() && closed
      ensures !old(closed) ==> open == {} && forall t :: t in old(open) ==> t.done
    {
      if closed { return; }
      closed := true;
      AbortAll(open);
      open := {};
    }

    method AbortAll(txs: set<Tx>)
      modifies txs
      ensures forall t :: t in txs ==> t.done && t.writes == map[]
    {
      var todo := txs;
      while todo != {}
        invariant todo <= txs
        invariant forall t :: t in txs - todo ==> t.done && t.writes == map[]
      {
        var t :| t in todo;
        t.done, t.writes := true, map[];
        todo := todo - {t};
      }
    }

    /** The oldest snapshot that an open transaction reads. */
    method Oldest() returns (oldest: nat)
      requires Valid()
      ensures low <= oldest <= commitTS
      ensures forall t :: t in open ==> oldest <= t.snapshot
      ensures oldest == commitTS || exists t :: t in open && t.snapshot == oldest
    {
      oldest := commitTS;
      var todo := open;
      while todo != {}
        invariant todo <= open && low <= oldest <= commitTS
        invariant forall t :: t in open - todo ==> oldest <= t.snapshot
        invariant oldest == commitTS || exists t :: t in open && t.snapshot == oldest
      {
        var t :| t in todo;
        if t.snapshot < oldest { oldest := t.snapshot; }
        todo := todo - {t};
      }
    }

    /** Vacuum removes the versions that no open snapshot can read, and only those. */
    method Vacuum() returns (r: Outcome, n: nat)
      requires Valid()
      modifies this`heads, this`chains, this`reclaimed, this`low
      ensures Valid() && hist == old(hist) && changes == old(changes) && snaps == old(snaps)
        && commitTS == old(commitTS) && liveKeys == old(liveKeys)
      ensures r == if closed then Closed else Ok
      ensures r == Ok ==> Vacuumed(old(heads), old(chains), spaces, low, heads, chains)
      ensures r == Ok ==> (low == commitTS || exists t :: t in open && t.snapshot == low)
      ensures n == |old(heads)| - |heads| + |old(chains)| - |chains| && reclaimed == old(reclaimed) + n
      ensures r != Ok ==> heads == old(heads) && chains == old(chains) && low == old(low)
    {
      hide Sound, Vacuumed;
      if closed { return Closed, 0; }
      var oldest := Oldest();
      var heads', chains';
      heads', chains', n := DropDead(heads, chains, spaces, oldest);
      r := Ok;
      VacuumKeeps(State(), spaces, oldest, State().(heads := heads', chains := chains', low := oldest));
      heads, chains, low := heads', chains', oldest;
      reclaimed := reclaimed + n;
    }
  }
  // ---- transactions -------------------------------------------------------------------

  class Tx {
    const m: Manager
    const id: nat
    const snapshot: nat
    const ro: bool
    var commitTS: nat
    var done: bool
    var writes: Writes
    var marks: seq<Writes>
    /** The successful calls since the start that no rollback took back, and those before each mark. */
    ghost var calls: seq<Call>
    ghost var markCalls: seq<seq<Call>>

    constructor (m: Manager, id: nat, snapshot: nat, ro: bool)
      ensures this.m == m && this.id == id && this.snapshot == snapshot && this.ro == ro
      ensures !done && writes == map[] && marks == [] && commitTS == 0 && calls == [] && markCalls == []
      ensures Told()
    {
      this.m, this.id, this.snapshot, this.ro := m, id, snapshot, ro;
      commitTS, done, writes, marks := 0, false, map[], [];
      calls, markCalls := [], [];
      NothingRecorded();
    }

    /** The write set, and each one that was marked, is what the calls left. */
    ghost predicate Told() reads this {
      && Recorded(calls, writes) && |markCalls| == |marks|
      && (forall i :: 0 <= i < |marks| ==> Recorded(markCalls[i], marks[i]) && markCalls[i] <= calls)
      && forall i, j :: 0 <= i <= j < |marks| ==> markCalls[i] <= markCalls[j]
    }

    ghost predicate Valid() reads this, m, m.open { m.Valid() && (!done ==> this in m.open && Told()) }

    /** What this transaction sees: its snapshot under its own writes. */
    ghost function Sees(): Content
      reads this, m
      requires snapshot < |m.hist|
    { View(m.hist[snapshot], writes) }

    method Get(n: Name) returns (r: Outcome, val: Option<Payload>)
      requires Valid()
      ensures r == if n.ks == KSVERSION then Reserved else if done then Done else Ok
      ensures r == Ok ==> snapshot < |m.hist| && val == Lookup(Sees(), n)
    {
      if n.ks == KSVERSION { return Reserved, None; }
      if done { return Done, None; }
      r := Ok;
      if n in writes {
        val := if writes[n].del then None else Some(writes[n].val);
      } else {
        val := m.ReadAt(n, snapshot);
      }
    }

    method Delete(n: Name) returns (r: Outcome)
      requires Valid()
      modifies this`writes, this`calls
      ensures Valid()
      ensures r == if n.ks == KSVERSION then Reserved else if old(done) then Done else if ro then ReadOnly
        else if n !in old(writes) && m.maxWrite > 0 && |old(writes)| >= m.maxWrite then Exhausted else Ok
      ensures r == Ok ==>
        writes == old(writes)[n := WriteOp([], true, false, false)] && snapshot < |m.hist|
          && Sees() == old(Sees()) - {n} && calls == old(calls) + [Deleted(n)]
      ensures r != Ok ==> writes == old(writes) && calls == old(calls)
    {
      hide Sound, View, Recorded;
      if n.ks == KSVERSION { return Reserved; }
      if done { return Done; }
      if ro { return ReadOnly; }
      if n !in writes && AtCap(|writes|, m.maxWrite) { return Exhausted; }
      ViewStep(m.hist[snapshot], writes, n, WriteOp([], true, false, false));
      CallRecorded(calls, writes, Deleted(n), WriteOp([], true, false, false));
      writes := writes[n := WriteOp([], true, false, false)];
      calls := calls + [Deleted(n)];
      r := Ok;
    }

    /** put: a key once inserted as unique stays so, and remembers that it was deleted here before. */
    method Put(n: Name, val: Payload, unique: bool) returns (r: Outcome)
      requires Valid()
      modifies this`writes, this`calls, m`spaces
      ensures Valid()
      ensures r == if n.ks == KSVERSION then Reserved else if old(done) then Done else if ro then ReadOnly
        else if n !in old(writes) && m.maxWrite > 0 && |old(writes)| >= m.maxWrite then Exhausted else Ok
      ensures r == Ok ==> snapshot < |m.hist| && Sees() == old(Sees())[n := val] && n.ks in m.spaces
      ensures r == Ok ==> writes == old(writes)[n := WriteOp(val, false,
        unique || (n in old(writes) && old(writes)[n].unique), n in old(writes)
          && (old(writes)[n].shadowed || old(writes)[n].del))]
      ensures r == Ok ==> calls == old(calls) + [Written(n, val, unique)]
      ensures r != Ok ==> writes == old(writes) && calls == old(calls) && m.spaces == old(m.spaces)
    {
      hide Sound, View, Recorded;
      if n.ks == KSVERSION { return Reserved; }
      if done { return Done; }
      if ro { return ReadOnly; }
      if n !in writes && AtCap(|writes|, m.maxWrite) { return Exhausted; }
      var prev := if n in writes then writes[n] else WriteOp([], false, false, false);
      ViewStep(m.hist[snapshot], writes, n, WriteOp(val, false, unique || prev.unique, prev.shadowed || prev.del));
      CallRecorded(calls, writes, Written(n, val, unique),
        WriteOp(val, false, unique || prev.unique, prev.shadowed || prev.del));
      writes := writes[n := WriteOp(val, false, unique || prev.unique, prev.shadowed || prev.del)];
      calls := calls + [Written(n, val, unique)];
      m.spaces := m.spaces + {n.ks};
      r := Ok;
    }

    /** InsertUnique refuses a key that this transaction can see. */
    method InsertUnique(n: Name, val: Payload) returns (r: Outcome)
      requires Valid()
      modifies this`writes, this`calls, m`spaces
      ensures Valid()
      ensures r == ConstraintViolation <==>
        n.ks != KSVERSION && !old(done) && !ro && snapshot < |m.hist| && n in old(Sees())
      ensures r != ConstraintViolation ==>
        r == if n.ks == KSVERSION then Reserved else if old(done) then Done else if ro then ReadOnly
          else if n !in old(writes) && m.maxWrite > 0 && |old(writes)| >= m.maxWrite then Exhausted else Ok
      ensures r == Ok ==> snapshot < |m.hist| && Sees() == old(Sees())[n := val] && n in writes && writes[n].unique
      ensures r == Ok ==> calls == old(calls) + [Written(n, val, true)]
      ensures r == Ok && Polite(old(calls), m.hist[snapshot]) ==> Polite(calls, m.hist[snapshot])
      ensures r != Ok ==> writes == old(writes) && calls == old(calls)
    {
      hide Sound, Recorded;
      if n.ks == KSVERSION { return Reserved; }
      if done { return Done; }
      if ro { return ReadOnly; }
      if n in writes {
        if !writes[n].del { return ConstraintViolation; }
      } else {
        var there := m.ReadAt(n, snapshot);
        if there.Some? { return ConstraintViolation; }
      }
      SeesCalls(calls, writes, m.hist[snapshot]);
      if Polite(calls, m.hist[snapshot]) { PoliteGrows(calls, m.hist[snapshot], Written(n, val, true)); }
      r := Put(n, val, true);
    }

    /** Mark remembers the write set. */
    method Mark() returns (r: Outcome, mark: nat)
      requires Valid()
      modifies this`marks, this`markCalls
      ensures Valid() && r == if done then Done else Ok
      ensures r == Ok ==> mark == |marks| && marks == old(marks) + [writes] && markCalls == old(markCalls) + [calls]
      ensures r != Ok ==> marks == old(marks) && markCalls == old(markCalls)
    {
      hide Recorded;
      if done { return Done, 0; }
      marks, markCalls := marks + [writes], markCalls + [calls];
      r, mark := Ok, |marks|;
    }

    /** RollbackTo restores the write set from Mark and drops that mark and later ones. */
    method RollbackTo(mark: int) returns (r: Outcome)
      requires Valid()
      modifies this`writes, this`marks, this`calls, this`markCalls
      ensures Valid() && r == if done then Done else if 1 <= mark <= |old(marks)| then Ok else InvalidArgument
      ensures r == Ok ==> writes == old(marks)[mark - 1] && marks == old(marks)[..mark - 1]
      ensures r == Ok ==> |old(markCalls)| == |old(marks)|
      ensures r == Ok ==> calls == old(markCalls)[mark - 1] <= old(calls) && markCalls == old(markCalls)[..mark - 1]
      ensures r != Ok ==> writes == old(writes) && marks == old(marks)
      ensures r != Ok ==> calls == old(calls) && markCalls == old(markCalls)
    {
      hide Recorded;
      if done { return Done; }
      if mark < 1 || mark > |marks| { return InvalidArgument; }
      writes, calls := marks[mark - 1], markCalls[mark - 1];
      marks, markCalls := marks[..mark - 1], markCalls[..mark - 1];
      r := Ok;
    }

    method Finish()
      requires Valid() && !done
      modifies this`done, this`writes, this`marks, m`open
      ensures Valid() && done && writes == map[] && marks == [] && m.open == old(m.open) - {this}
    {
      hide Sound;
      done, writes, marks := true, map[], [];
      m.open := m.open - {this};
    }

    method Rollback() returns (r: Outcome)
      requires Valid()
      modifies this, m`open
      ensures Valid() && m.SameStore() && r == if old(done) then Done else Ok
      ensures done && m.open == old(m.open) - {this}
      ensures !old(done) ==> writes == map[] && marks == []
    {
      if done { return Done; }
      Finish();
      r := Ok;
    }

    /** Some key that this transaction claims was changed by a commit after the
        snapshot, or is there and the transaction never deleted it. */
    ghost predicate NotUnique() reads this, m, m.open
      requires m.Valid()
    {
      exists n :: Claims(calls, n) &&
        (ChangedSince(m.State(), n, snapshot) || (n in m.hist[m.commitTS] && !Removed(calls, n)))
    }

    /** Some key of this write set was changed by a commit after the snapshot. */
    ghost predicate Beaten() reads this, m, m.open
      requires m.Valid()
    { exists n :: n in writes && ChangedSince(m.State(), n, snapshot) }

    /** The part of Commit that validates: what the calls of this transaction and
        the commits since its snapshot say. */
    method Judge() returns (r: Outcome)
      requires Valid() && !done
      ensures r == if NotUnique() then ConstraintViolation else if Beaten() then Conflict else Ok
      ensures snapshot < |m.hist| && (r == Ok ==> forall n :: n in writes ==> !ChangedSince(m.State(), n, snapshot))
      ensures !Beaten() ==> (r == ConstraintViolation <==> exists n :: Taken(calls, m.hist[snapshot], n))
      ensures !Beaten() && Polite(calls, m.hist[snapshot]) ==> r == Ok
    {
      hide Sound, View, ChangedSince, Changed, Recorded, Claims, Polite, Clash, Taken, Removed;
      SoundShape(m.State());
      Verdicts(m.State(), calls, writes, snapshot);
      r := Validate(m.State(), m.heads, snapshot, writes);
    }

    /** The part of Commit that publishes and ends the transaction. */
    method Settle()
      requires Valid() && !done && forall n :: n in writes ==> !ChangedSince(m.State(), n, snapshot)
      modifies this, m
      ensures Valid() && done && m.open == old(m.open) - {this} && commitTS == m.commitTS == old(m.commitTS) + 1
      ensures m.low == old(m.low) && m.closed == old(m.closed) && m.nextTxnID == old(m.nextTxnID)
      ensures m.hist == old(m.hist) + [View(old(m.hist)[old(m.commitTS)], old(writes))]
      ensures m.changes == old(m.changes) + [Changed(old(m.hist)[old(m.commitTS)], old(writes))]
        && m.snaps == old(m.snaps) + [snapshot]
    {
      hide Sound, View, Changed, ChangedSince, Recorded;
      m.Advance(writes, snapshot);
      Finish();
      commitTS := m.commitTS;
    }

    /** Commit fails exactly on a constraint violation or on a concurrent change
        of one of its keys. Otherwise the next map of the history is the current
        one under this write set. A failed commit leaves the transaction open. */
    method Commit() returns (r: Outcome)
      requires Valid()
      modifies this, m
      ensures Valid() && old(m.hist) <= m.hist && m.low == old(m.low) && m.closed == old(m.closed)
        && m.nextTxnID == old(m.nextTxnID)
      ensures old(done) ==> r == Done && m.SameStore() && m.open == old(m.open)
      ensures !old(done) && (ro || old(writes) == map[]) ==> r == Ok && m.SameStore()
      ensures !old(done) && !ro && old(writes) != map[] ==>
        r == if old(NotUnique()) then ConstraintViolation else if old(Beaten()) then Conflict else Ok
      ensures !old(done) && !ro && old(writes) != map[] && !old(Beaten()) ==>
        (r == ConstraintViolation <==> exists n :: Taken(old(calls), old(m.hist)[snapshot], n))
      ensures !old(done) && !old(Beaten()) && snapshot < |old(m.hist)| && Polite(old(calls), old(m.hist)[snapshot]) ==>
        r == Ok
      ensures r == Ok ==> done && m.open == old(m.open) - {this}
      ensures r == Ok && !ro && old(writes) != map[] ==>
        && commitTS == m.commitTS == old(m.commitTS) + 1
        && m.hist == old(m.hist) + [View(old(m.hist)[old(m.commitTS)], old(writes))]
        && m.changes == old(m.changes) + [Changed(old(m.hist)[old(m.commitTS)], old(writes))]
        && m.snaps == old(m.snaps) + [snapshot]
      ensures r != Ok ==>
        m.SameStore() && m.open == old(m.open) && done == old(done) && writes == old(writes) && marks == old(marks)
          && calls == old(calls) && markCalls == old(markCalls)
    {
      hide Sound, View, Changed, ChangedSince, Recorded, Polite, Taken, NotUnique, Beaten;
      if done { return Done; }
      if ro || writes == map[] {
        Finish();
        return Ok;
      }
      r := Judge();
      if r == Ok { Settle(); }
    }
  }
}
