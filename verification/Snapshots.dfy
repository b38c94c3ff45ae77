/** Snapshot reads of the disk engine: undo records give every open transaction the map it began with. */
module Snapshots {
  import opened Options
  import opened Versions

  datatype UndoRec = UndoRec(gen: nat, val: Payload, existed: bool)

  type Undo = map<Name, seq<UndoRec>>

  function Was(r: UndoRec): Option<Payload> { if r.existed then Some(r.val) else None }

  function Recs(undo: Undo, n: Name): seq<UndoRec> { if n in undo then undo[n] else [] }

  // ---- the invariant ----------------------------------------------------------------

  /** A record of generation g holds what commit g overwrote. */
  ghost predicate TrueRec(hist: seq<Content>, n: Name, r: UndoRec) {
    0 < r.gen < |hist| && Was(r) == Lookup(hist[r.gen - 1], n)
  }

  ghost predicate TrueRecs(undo: Undo, hist: seq<Content>) {
    forall n, i :: n in undo && 0 <= i < |undo[n]| ==> TrueRec(hist, n, undo[n][i])
  }

  ghost predicate HasRec(undo: Undo, n: Name, g: nat) {
    exists i :: 0 <= i < |Recs(undo, n)| && Recs(undo, n)[i].gen == g
  }

  /** Every change after generation low is recorded. */
  ghost predicate Recorded(undo: Undo, hist: seq<Content>, low: nat) {
    forall n, g :: low < g < |hist| && Lookup(hist[g], n) != Lookup(hist[g-1], n) ==> HasRec(undo, n, g)
  }

  // ---- reading ------------------------------------------------------------------------

  /** The oldest record after gen, if there is one. */
  predicate OldestAfter(recs: seq<UndoRec>, gen: nat, r: Option<UndoRec>) {
    match r
    case None => forall i :: 0 <= i < |recs| ==> recs[i].gen <= gen
    case Some(x) => x in recs && x.gen > gen && forall i :: 0 <= i < |recs| && recs[i].gen > gen ==>
      x.gen <= recs[i].gen
  }

  method OldestUndo(recs: seq<UndoRec>, gen: nat) returns (best: Option<UndoRec>)
    ensures OldestAfter(recs, gen, best)
  {
    best := None;
    for i := 0 to |recs|
      invariant OldestAfter(recs[..i], gen, best)
    {
      assert recs[..i+1] == recs[..i] + [recs[i]];
      if recs[i].gen > gen && (best.None? || recs[i].gen < best.value.gen) { best := Some(recs[i]); }
    }
    assert recs[..|recs|] == recs;
  }

  function ReadThrough(tree: Content, n: Name, best: Option<UndoRec>): Option<Payload> {
    if best.Some? then Was(best.value) else Lookup(tree, n)
  }

  /** With no change recorded from a to b, the value stays. */
  lemma {:induction false} Steady(undo: Undo, hist: seq<Content>, low: nat, n: Name, a: nat, b: nat)
    requires Recorded(undo, hist, low) && low <= a <= b < |hist| && forall g :: a < g <= b ==> !HasRec(undo, n, g)
    ensures Lookup(hist[b], n) == Lookup(hist[a], n)
    decreases b - a
  {
    if a < b {
      assert !HasRec(undo, n, b);
      Steady(undo, hist, low, n, a, b - 1);
    }
  }

  /** readGen gives the map of the generation, whatever was committed since. */
  lemma {:induction false} ReadIsHistory(undo: Undo, hist: seq<Content>, low: nat, n: Name, gen: nat,
                                         best: Option<UndoRec>)
    requires TrueRecs(undo, hist) && Recorded(undo, hist, low) && low <= gen < |hist|
      && OldestAfter(Recs(undo, n), gen, best)
    ensures ReadThrough(hist[|hist|-1], n, best) == Lookup(hist[gen], n)
  {
    var until := if best.None? then |hist| - 1 else best.value.gen - 1;
    if best.Some? {
      var i :| 0 <= i < |Recs(undo, n)| && Recs(undo, n)[i] == best.value;
      assert TrueRec(hist, n, undo[n][i]);
    }
    forall g | gen < g <= until ensures !HasRec(undo, n, g) {}
    Steady(undo, hist, low, n, gen, until);
  }

  // ---- committing -----------------------------------------------------------------------

  /** noteUndo. */
  function Noted(undo: Undo, n: Name, r: UndoRec): Undo { undo[n := Recs(undo, n) + [r]] }

  /** The undo log after applyOps: one record for each written key. */
  ghost predicate NotedAll(undo: Undo, tree: Content, names: set<Name>, gen: nat, undo': Undo) {
    forall n :: Recs(undo', n) == Recs(undo, n) + (if n in names then [Before(tree, n, gen)] else [])
  }

  function Before(tree: Content, n: Name, gen: nat): UndoRec {
    UndoRec(gen, if n in tree then tree[n] else [], n in tree)
  }

  lemma {:induction false} CommitKeeps(undo: Undo, hist: seq<Content>, low: nat, ws: Writes, undo': Undo)
    requires hist != [] && TrueRecs(undo, hist) && Recorded(undo, hist, low) && low < |hist|
    requires NotedAll(undo, hist[|hist|-1], ws.Keys, |hist|, undo')
    ensures var hist' := hist + [View(hist[|hist|-1], ws)]; TrueRecs(undo', hist') && Recorded(undo', hist', low)
  {
    hide View;
    var tree := hist[|hist|-1];
    var hist' := hist + [View(tree, ws)];
    StaysTrue(undo, hist, ws, undo');
    forall n, g | low < g < |hist'| && Lookup(hist'[g], n) != Lookup(hist'[g-1], n) ensures HasRec(undo', n, g) {
      if g < |hist| {
        assert HasRec(undo, n, g);
        var i :| 0 <= i < |Recs(undo, n)| && Recs(undo, n)[i].gen == g;
        assert Recs(undo', n)[i].gen == g;
      } else {
        ViewAt(tree, ws, n);
        assert Recs(undo', n)[|Recs(undo, n)|].gen == g;
      }
    }
  }

  /** The undo records that a commit notes are true of the longer history. */
  lemma {:induction false} StaysTrue(undo: Undo, hist: seq<Content>, ws: Writes, undo': Undo)
    requires hist != [] && TrueRecs(undo, hist) && NotedAll(undo, hist[|hist|-1], ws.Keys, |hist|, undo')
    ensures TrueRecs(undo', hist + [View(hist[|hist|-1], ws)])
  {
    hide View;
    var hist' := hist + [View(hist[|hist|-1], ws)];
    forall n, i | n in undo' && 0 <= i < |undo'[n]| ensures TrueRec(hist', n, undo'[n][i]) {
      assert Recs(undo', n) == undo'[n];
      if i < |Recs(undo, n)| { assert TrueRec(hist, n, undo[n][i]); }
    }
  }

  // ---- collecting -------------------------------------------------------------------------

  function Kept(recs: seq<UndoRec>, oldest: nat): seq<UndoRec> {
    if recs == [] then []
    else if recs[|recs|-1].gen > oldest then Kept(recs[..|recs|-1], oldest) + [recs[|recs|-1]]
    else Kept(recs[..|recs|-1], oldest)
  }

  lemma {:induction false} KeptMember(recs: seq<UndoRec>, oldest: nat, r: UndoRec)
    ensures r in Kept(recs, oldest) <==> r in recs && r.gen > oldest
  {
    if recs != [] {
      KeptMember(recs[..|recs|-1], oldest, r);
      assert recs == recs[..|recs|-1] + [recs[|recs|-1]];
    }
  }

  /** gcUndo drops no record that a generation from `oldest` on needs. */
  lemma {:induction false} CollectKeeps(undo: Undo, hist: seq<Content>, low: nat, oldest: nat, undo': Undo)
    requires TrueRecs(undo, hist) && Recorded(undo, hist, low) && low <= oldest
    requires forall n :: Recs(undo', n) == Kept(Recs(undo, n), oldest)
    ensures TrueRecs(undo', hist) && Recorded(undo', hist, oldest)
  {
    forall n, i | n in undo' && 0 <= i < |undo'[n]| ensures TrueRec(hist, n, undo'[n][i]) {
      var r := undo'[n][i];
      assert r in Recs(undo', n);
      KeptMember(Recs(undo, n), oldest, r);
      var j :| 0 <= j < |Recs(undo, n)| && Recs(undo, n)[j] == r;
      assert TrueRec(hist, n, undo[n][j]);
    }
    forall n, g | oldest < g < |hist| && Lookup(hist[g], n) != Lookup(hist[g-1], n) ensures HasRec(undo', n, g) {
      assert HasRec(undo, n, g);
      var i :| 0 <= i < |Recs(undo, n)| && Recs(undo, n)[i].gen == g;
      KeptMember(Recs(undo, n), oldest, Recs(undo, n)[i]);
      var j :| 0 <= j < |Recs(undo', n)| && Recs(undo', n)[j] == Recs(undo, n)[i];
    }
  }

  method KeepRecs(recs: seq<UndoRec>, oldest: nat) returns (kept: seq<UndoRec>)
    ensures kept == Kept(recs, oldest)
  {
    kept := [];
    for i := 0 to |recs|
      invariant kept == Kept(recs[..i], oldest)
    {
      assert recs[..i+1][..i] == recs[..i];
      if recs[i].gen > oldest { kept := kept + [recs[i]]; }
    }
    assert recs[..|recs|] == recs;
  }

  // ---- the engine -------------------------------------------------------------------------

  datatype Outcome = Ok | Done | ReadOnly | InvalidArgument

  class Engine {
    /** The content of the trees. */
    var tree: Content
    var gen: nat
    var keys: int
    var undo: Undo
    var open: set<DiskTx>
    ghost var hist: seq<Content>
    ghost var low: nat

    ghost predicate Valid() reads this, open {
      && gen + 1 == |hist| && hist[gen] == tree && keys == |tree| && low <= gen
      && TrueRecs(undo, hist) && Recorded(undo, hist, low)
      && forall t :: t in open ==> t.eng == this && !t.done && low <= t.gen <= gen
    }

    constructor (content: Content)
      ensures Valid() && open == {} && hist == [content]
    {
      tree, gen, keys, undo, open := content, 0, |content|, map[], {};
      hist, low := [content], 0;
    }

    method Begin(ro: bool) returns (t: DiskTx)
      requires Valid()
      modifies this`open
      ensures Valid() && fresh(t) && open == old(open) + {t}
      ensures t.eng == this && t.gen == gen && t.ro == ro && !t.done && t.writes == map[] && t.marks == []
    {
      hide TrueRecs, Recorded;
      t := new DiskTx(this, gen, ro);
      open := open + {t};
    }

    method ReadGen(g: nat, n: Name) returns (r: Option<Payload>)
      requires Valid() && low <= g <= gen
      ensures r == Lookup(hist[g], n)
    {
      var best := OldestUndo(Recs(undo, n), g);
      ReadIsHistory(undo, hist, low, n, g, best);
      r := ReadThrough(tree, n, best);
    }

    /** applyOps: note what each write replaces, write it, and start the next generation. */
    method ApplyOps(ws: Writes)
      requires Valid()
      modifies this`tree, this`undo, this`keys, this`gen, this`hist
      ensures Valid() && gen == old(gen) + 1 && hist == old(hist) + [View(old(tree), ws)]
    {
      hide TrueRecs, Recorded, View, NotedAll;
      ghost var was, notes := tree, undo;
      tree, undo, keys := ApplyAll(tree, undo, keys, gen + 1, ws);
      CommitKeeps(notes, hist, low, ws, undo);
      gen := gen + 1;
      hist := hist + [tree];
    }

    /** gcUndo. */
    method GcUndo()
      requires Valid()
      modifies this`undo, this`low
      ensures Valid() && (forall t :: t in open ==> low <= t.gen)
        && (low == gen || exists t :: t in open && t.gen == low)
      ensures forall n :: Recs(undo, n) == Kept(old(Recs(undo, n)), low)
    {
      hide TrueRecs, Recorded;
      var oldest := Oldest();
      var undo' := Collect(undo, oldest);
      CollectKeeps(undo, hist, low, oldest, undo');
      undo, low := undo', oldest;
    }

    method Oldest() returns (oldest: nat)
      requires Valid()
      ensures low <= oldest <= gen && (forall t :: t in open ==> oldest <= t.gen)
        && (oldest == gen || exists t :: t in open && t.gen == oldest)
    {
      hide TrueRecs, Recorded;
      oldest := gen;
      var todo := open;
      while todo != {}
        invariant todo <= open && low <= oldest <= gen && forall t :: t in open - todo ==> oldest <= t.gen
        invariant oldest == gen || exists t :: t in open && t.gen == oldest
      {
        var t :| t in todo;
        if t.gen < oldest { oldest := t.gen; }
        todo := todo - {t};
      }
    }
  }

  /** The body of applyOps' loop. */
  method ApplyOp(tree: Content, undo: Undo, keys: int, gen: nat, n: Name, op: WriteOp)
    returns (tree': Content, undo': Undo, keys': int)
    ensures tree' == (if op.del then tree - {n} else tree[n := op.val]) && keys' - keys == |tree'| - |tree|
    ensures undo' == Noted(undo, n, Before(tree, n, gen))
  {
    hide Noted;
    var existed := n in tree;
    CountStep(tree, n, op.val);
    undo', keys' := Noted(undo, n, UndoRec(gen, if existed then tree[n] else [], existed)), keys;
    if op.del {
      tree' := tree - {n};
      if existed { keys' := keys - 1; }
    } else {
      tree' := tree[n := op.val];
      if !existed { keys' := keys + 1; }
    }
  }

  /** The loop of applyOps. */
  method ApplyAll(was: Content, notes: Undo, count: int, gen: nat, ws: Writes)
    returns (tree: Content, undo: Undo, keys: int)
    ensures tree == View(was, ws) && NotedAll(notes, was, ws.Keys, gen, undo) && keys - count == |tree| - |was|
  {
    hide View, NotedAll, Part, Noted, Before;
    tree, undo, keys := was, notes, count;
    var todo := ws.Keys;
    NothingDone(was, ws, notes, gen);
    assert ws.Keys - todo == {};
    while todo != {}
      invariant todo <= ws.Keys && NotedAll(notes, was, ws.Keys - todo, gen, undo)
      invariant tree == View(was, Part(ws, ws.Keys - todo)) && keys - count == |tree| - |was|
    {
      var n :| n in todo;
      ghost var done := ws.Keys - todo;
      OneMore(was, ws, done, n);
      NoteOne(notes, was, done, n, gen, undo);
      SameBefore(tree, was, n, gen);
      tree, undo, keys := ApplyOp(tree, undo, keys, gen, n, ws[n]);
      todo := todo - {n};
      assert ws.Keys - todo == done + {n};
    }
    assert ws.Keys - {} == ws.Keys;
    AllDone(ws);
  }

  lemma {:induction false} SameBefore(a: Content, b: Content, n: Name, gen: nat)
    requires Lookup(a, n) == Lookup(b, n)
    ensures Before(a, n, gen) == Before(b, n, gen)
  {}

  /** The loop of gcUndo over the keys. */
  method Collect(undo: Undo, oldest: nat) returns (undo': Undo)
    ensures forall n :: Recs(undo', n) == Kept(Recs(undo, n), oldest)
  {
    undo' := undo;
    var todo := undo.Keys;
    while todo != {}
      invariant todo <= undo.Keys
      invariant forall n :: Recs(undo', n) == if n in todo then Recs(undo, n) else Kept(Recs(undo, n), oldest)
    {
      var n :| n in todo;
      var kept := KeepRecs(undo[n], oldest);
      if kept == [] { undo' := undo' - {n}; } else { undo' := undo'[n := kept]; }
      todo := todo - {n};
    }
  }

  lemma {:induction false} NothingDone(was: Content, ws: Writes, undo: Undo, gen: nat)
    ensures View(was, Part(ws, {})) == was && NotedAll(undo, was, {}, gen, undo)
  {
    assert Part(ws, {}) == map[];
    forall n ensures Recs(undo, n) == Recs(undo, n) + [] {}
  }

  lemma {:induction false} AllDone(ws: Writes)
    ensures Part(ws, ws.Keys) == ws
  {}

  lemma {:induction false} OneMore(was: Content, ws: Writes, done: set<Name>, n: Name)
    requires n in ws && n !in done
    ensures var v := View(was, Part(ws, done));
      && Lookup(v, n) == Lookup(was, n)
      && View(was, Part(ws, done + {n})) == if ws[n].del then v - {n} else v[n := ws[n].val]
  {
    hide View;
    ViewAt(was, Part(ws, done), n);
    ViewStep(was, Part(ws, done), n, ws[n]);
    PartStep(ws, done, n);
  }

  lemma {:induction false} NoteOne(notes: Undo, was: Content, done: set<Name>, n: Name, gen: nat, undo: Undo)
    requires n !in done && NotedAll(notes, was, done, gen, undo)
    ensures NotedAll(notes, was, done + {n}, gen, Noted(undo, n, Before(was, n, gen)))
  {
    var undo' := Noted(undo, n, Before(was, n, gen));
    forall m ensures Recs(undo', m) == Recs(notes, m) + (if m in done + {n} then [Before(was, m, gen)] else []) {
      assert Recs(undo, m) == Recs(notes, m) + (if m in done then [Before(was, m, gen)] else []);
      if m == n { assert Recs(notes, n) + [] == Recs(notes, n); }
    }
  }

  // ---- disk transactions --------------------------------------------------------------------

  class DiskTx {
    const eng: Engine
    const gen: nat
    const ro: bool
    var done: bool
    var writes: Writes
    var marks: seq<Writes>

    constructor (eng: Engine, gen: nat, ro: bool)
      ensures this.eng == eng && this.gen == gen && this.ro == ro && !done && writes == map[] && marks == []
    {
      this.eng, this.gen, this.ro := eng, gen, ro;
      done, writes, marks := false, map[], [];
    }

    ghost predicate Valid() reads this, eng, eng.open { eng.Valid() && (!done ==> this in eng.open) }

    ghost function Sees(): Content
      reads this, eng
      requires gen < |eng.hist|
    { View(eng.hist[gen], writes) }

    /** A transaction reads the map of its generation under its own writes for its whole life. */
    method Get(n: Name) returns (r: Outcome, val: Option<Payload>)
      requires Valid()
      ensures r == if done then Done else Ok
      ensures r == Ok ==> gen < |eng.hist| && val == Lookup(Sees(), n)
    {
      if done { return Done, None; }
      r := Ok;
      if n in writes { val := if writes[n].del then None else Some(writes[n].val); }
      else { val := eng.ReadGen(gen, n); }
    }

    /** stage: Put and Delete. */
    method Stage(n: Name, val: Payload, del: bool) returns (r: Outcome)
      requires Valid()
      modifies this`writes
      ensures Valid() && r == if done then Done else if ro then ReadOnly else Ok
      ensures r == Ok ==> gen < |eng.hist| && Sees() == (if del then old(Sees()) - {n} else old(Sees())[n := val])
      ensures r != Ok ==> writes == old(writes)
    {
      hide TrueRecs, Recorded, View;
      if done { return Done; }
      if ro { return ReadOnly; }
      var op := WriteOp(val, del, false, false);
      ViewStep(eng.hist[gen], writes, n, op);
      writes := writes[n := op];
      r := Ok;
    }

    method Finish()
      requires Valid() && !done
      modifies this`done, this`writes, this`marks, eng`open
      ensures Valid() && done && eng.open == old(eng.open) - {this}
    {
      hide TrueRecs, Recorded;
      done, writes, marks := true, map[], [];
      eng.open := eng.open - {this};
    }

    /** Commit applies the write set to the current map as one new generation. */
    method Commit() returns (r: Outcome)
      requires Valid()
      modifies this, eng
      ensures Valid() && done && r == if old(done) then Done else Ok
      ensures eng.open == old(eng.open) - {this}
      ensures eng.hist == if old(done) || ro || old(writes) == map[] then old(eng.hist)
        else old(eng.hist) + [View(old(eng.tree), old(writes))]
    {
      hide TrueRecs, Recorded, View;
      if done { return Done; }
      if ro || writes == map[] {
        Finish();
        return Ok;
      }
      eng.ApplyOps(writes);
      Finish();
      eng.GcUndo();
      r := Ok;
    }

    method Rollback() returns (r: Outcome)
      requires Valid()
      modifies this, eng
      ensures Valid() && done && r == if old(done) then Done else Ok
      ensures eng.open == old(eng.open) - {this} && eng.hist == old(eng.hist) && eng.tree == old(eng.tree)
    {
      hide TrueRecs, Recorded;
      if done { return Done; }
      Finish();
      eng.GcUndo();
      r := Ok;
    }

    method Mark() returns (r: Outcome, mark: nat)
      requires Valid()
      modifies this`marks
      ensures Valid() && r == if done then Done else Ok
      ensures r == Ok ==> mark == |marks| && marks == old(marks) + [writes]
      ensures r != Ok ==> marks == old(marks)
    {
      if done { return Done, 0; }
      marks := marks + [writes];
      r, mark := Ok, |marks|;
    }

    method RollbackTo(mark: int) returns (r: Outcome)
      requires Valid()
      modifies this`writes, this`marks
      ensures Valid() && r == if done then Done else if 1 <= mark <= |old(marks)| then Ok else InvalidArgument
      ensures r == Ok ==> writes == old(marks)[mark - 1] && marks == old(marks)[..mark - 1]
      ensures r != Ok ==> writes == old(writes) && marks == old(marks)
    {
      if done { return Done; }
      if mark < 1 || mark > |marks| { return InvalidArgument; }
      writes, marks := marks[mark - 1], marks[..mark - 1];
      r := Ok;
    }
  }
}
