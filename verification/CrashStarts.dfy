/**
 * What keeps a file recoverable: which checkpoints recovery may start from, what
 * it then installs, and how syncs, page writes and log records change that.
 */
module CrashStarts {
  import opened Recovery
  import opened CrashMachine

  // ---- what a log installs ------------------------------------------------------

  /** The transaction that record r commits, if any. */
  function Gain(log: seq<Rec>, r: Rec): seq<seq<Write>> {
    var h := Scan(GENESIS, log);
    if r.TxnCommit? && h.current.Txn? && h.current.tx == r.tx then [h.current.ws] else []
  }

  lemma {:induction false} CommitGrows(log: seq<Rec>, r: Rec)
    ensures Committed(log + [r]) == Committed(log) + Gain(log, r)
  {
    assert (log + [r])[..|log|] == log;
  }

  /** Every suffix that holds the whole transaction sees the same one. */
  lemma {:induction false} SuffixGrows(a: seq<Rec>, b: seq<Rec>, r: Rec)
    requires Contiguous(b + [r])
    ensures Committed(b + [r]) == Committed(b) + Gain(a + b, r)
  {
    hide Committed, Gain, Contiguous;
    assert (b + [r])[..|b|] == b && (a + b) + [r] == a + (b + [r]);
    ContiguousPrefix(b + [r], |b|);
    CommittedAppend(a, b);
    CommittedAppend(a, b + [r]);
    CommitGrows(a + b, r);
    TailGrows(Committed(a), Committed(b), Gain(a + b, r), Committed(b + [r]));
  }

  lemma {:induction false} TailGrows(a: seq<seq<Write>>, b: seq<seq<Write>>, g: seq<seq<Write>>, c: seq<seq<Write>>)
    requires a + c == (a + b) + g
    ensures c == b + g
  {
    assert (a + b) + g == a + (b + g);
    SameTail(a, c, b + g);
  }

  lemma {:induction false} InstallsGrow(log: seq<Rec>, c: nat, r: Rec)
    requires c <= |log| && Contiguous(log[c..] + [r])
    ensures Installs(log + [r], c) == Installs(log, c) + Flatten(Gain(log, r))
  {
    hide Committed, Gain, Flatten, Contiguous;
    assert log == log[..c] + log[c..] && (log + [r])[c..] == log[c..] + [r];
    SuffixGrows(log[..c], log[c..], r);
    FlattenAppend(Committed(log[c..]), Gain(log, r));
  }

  lemma {:induction false} SameTail(a: seq<seq<Write>>, b: seq<seq<Write>>, c: seq<seq<Write>>)
    requires a + b == a + c
    ensures b == c
  {
    assert b == (a + b)[|a|..] && c == (a + c)[|a|..];
  }

  lemma {:induction false} DatabaseGrows(created: Heap, log: seq<Rec>, r: Rec)
    ensures Database(created, log + [r]) == Apply(Database(created, log), Flatten(Gain(log, r)))
  {
    CommitGrows(log, r);
    FlattenAppend(Committed(log), Gain(log, r));
    ApplyAppend(created, Flatten(Committed(log)), Flatten(Gain(log, r)));
  }

  lemma {:induction false} ContiguousPrefix(log: seq<Rec>, n: nat)
    requires Contiguous(log) && n <= |log|
    ensures Contiguous(log[..n])
  {}

  lemma {:induction false} CutSuffix(log: seq<Rec>, m: nat, y: nat)
    requires y <= m <= |log|
    ensures log[..m][y..] == log[y..][..m - y]
  {}

  lemma {:induction false} NumberedPrefix(log: seq<Rec>, n: nat)
    requires Numbered(log) && n <= |log|
    ensures Numbered(log[..n]) && forall k :: WritesUpTo(log, k) ==> WritesUpTo(log[..n], k)
  {}

  lemma {:induction false} WritesSuffix(log: seq<Rec>, c: nat, x: nat, k: nat)
    requires c <= x <= |log| && WritesUpTo(log[c..], k)
    ensures WritesUpTo(log[x..], k)
  {
    assert forall i :: 0 <= i < |log| - x ==> log[x..][i] == log[c..][x - c + i];
  }

  lemma {:induction false} TouchesAppend(a: seq<Write>, b: seq<Write>, p: PageId)
    ensures Touches(a + b, p) <==> Touches(a, p) || Touches(b, p)
  {
    if i :| 0 <= i < |a| && a[i].id == p { assert (a + b)[i].id == p; }
    if i :| 0 <= i < |b| && b[i].id == p { assert (a + b)[|a| + i].id == p; }
  }

  /** A later checkpoint installs the last part of what an earlier one does. */
  lemma {:induction false} InstallsSuffix(log: seq<Rec>, c: nat, x: nat)
    requires c <= x <= |log| && Contiguous(log[x..])
    ensures Installs(log, c) == Installs(log[..x], c) + Installs(log, x)
  {
    assert log[..x][c..] + log[x..] == log[c..];
    CommittedAppend(log[..x][c..], log[x..]);
    FlattenAppend(Committed(log[..x][c..]), Committed(log[x..]));
  }

  lemma {:induction false} Within(log: seq<Rec>, c: nat, x: nat)
    requires c <= x <= |log| && Contiguous(log[x..])
    ensures forall w :: w in Installs(log, x) ==> w in Installs(log, c)
    ensures forall p :: Covered(log, x, p) ==> Covered(log, c, p)
    ensures forall y :: Leads(log, c, x) && Leads(log, x, y) ==> Leads(log, c, y)
  {
    InstallsSuffix(log, c, x);
    hide Installs;
    forall p | Covered(log, x, p) ensures Covered(log, c, p) {
      TouchesAppend(Installs(log[..x], c), Installs(log, x), p);
    }
  }

  lemma {:induction false} FlattenPrefix(a: seq<seq<Write>>, b: seq<seq<Write>>)
    requires a <= b
    ensures Flatten(a) <= Flatten(b)
  {
    assert b == a + b[|a|..];
    FlattenAppend(a, b[|a|..]);
  }

  /** A shorter log installs and leads to less. */
  lemma {:induction false} InstallsPrefix(log: seq<Rec>, n: nat, c: nat)
    requires c <= n <= |log|
    ensures Installs(log[..n], c) <= Installs(log, c)
    ensures forall x :: Leads(log[..n], c, x) ==> Leads(log, c, x)
  {
    assert log[..n][c..] == log[c..][..n - c];
    CommittedPrefix(log[c..], n - c);
    FlattenPrefix(Committed(log[c..][..n - c]), Committed(log[c..]));
    hide Committed, Flatten;
    forall x | Leads(log[..n], c, x) ensures Leads(log, c, x) {
      if x != c {
        var w :| w in Installs(log[..n], c) && w.id == 0 && w.img.ckpt == x;
        assert w in Installs(log, c);
      }
    }
  }

  /** Cutting off records that commit nothing changes nothing. */
  lemma {:induction false} InstallsSame(log: seq<Rec>, n: nat, c: nat)
    requires c <= n <= |log| && Contiguous(log[c..]) && |Committed(log)| == |Committed(log[..n])|
    ensures Installs(log[..n], c) == Installs(log, c)
  {
    var a := log[..c];
    assert log[..n][c..] == log[c..][..n - c];
    assert log == a + log[c..] && log[..n] == a + log[..n][c..];
    ContiguousPrefix(log[c..], n - c);
    CommittedAppend(a, log[c..]);
    CommittedAppend(a, log[..n][c..]);
    CommittedPrefix(log[c..], n - c);
    var p, q := Committed(log[..n][c..]), Committed(log[c..]);
    assert p <= q && |p| == |q|;
    assert p == q;
  }

  lemma {:induction false} SyncedBetween(log: seq<Rec>, d: nat, n: nat)
    requires d <= n <= |log| && Committed(log) == Committed(log[..d])
    ensures Committed(log[..n]) == Committed(log)
  {
    assert log[..n][..d] == log[..d];
    CommittedPrefix(log, n);
    CommittedPrefix(log[..n], d);
  }

  // ---- safe pages ---------------------------------------------------------------

  /** A write that replay from c repeats anyway, or that changes no bytes. */
  ghost predicate Fine(created: Heap, log: seq<Rec>, c: nat, w: Write) {
    Covered(log, c, w.id) || Right(Database(created, log), w)
  }

  /** A sync or a crash picks one value for each page; fewer or fine writes are left. */
  lemma {:induction false} SafeSettle(created: Heap, disk: Heap, ws: seq<Write>, pend: seq<Write>, after: Heap,
                                      ws': seq<Write>, log: seq<Rec>, c: nat)
    requires Safe(created, disk, ws, log, c) && Survives(disk, pend, after)
    requires forall w :: w in pend ==> w in ws
    requires forall w :: w in ws' ==> w in ws || Fine(created, log, c, w)
    ensures Safe(created, after, ws', log, c)
  {
    hide Database, Covered;
    forall p ensures SafePage(created, after, ws', log, c, p) {
      assert SafePage(created, disk, ws, log, c, p);
    }
  }

  lemma {:induction false} SafePageGrows(created: Heap, disk: Heap, ws: seq<Write>, log: seq<Rec>, c: nat, r: Rec,
                                         p: PageId)
    requires c <= |log| && Contiguous(log[c..] + [r])
    requires Touches(Flatten(Gain(log, r)), p) || SafePage(created, disk, ws, log, c, p)
    ensures SafePage(created, disk, ws + Flatten(Gain(log, r)), log + [r], c, p)
  {
    var d := Flatten(Gain(log, r));
    InstallsGrow(log, c, r);
    DatabaseGrows(created, log, r);
    hide Gain, Flatten, Installs, Database;
    TouchesAppend(Installs(log, c), d, p);
    if !Touches(d, p) {
      ApplyPage(Database(created, log), map[], d, p);
      assert forall w :: w in d ==> Touches(d, w.id);
    }
  }

  /** Committing one more transaction keeps every page safe outside it, and its own pages are replayed. */
  lemma {:induction false} SafeGrows(created: Heap, disk: Heap, ws: seq<Write>, log: seq<Rec>, c: nat, r: Rec)
    requires c <= |log| && Contiguous(log[c..] + [r])
    requires forall p :: Touches(Flatten(Gain(log, r)), p) || SafePage(created, disk, ws, log, c, p)
    ensures Safe(created, disk, ws + Flatten(Gain(log, r)), log + [r], c)
  {
    hide SafePage, Gain, Flatten, Contiguous, Touches;
    forall p ensures SafePage(created, disk, ws + Flatten(Gain(log, r)), log + [r], c, p) {
      SafePageGrows(created, disk, ws, log, c, r, p);
    }
  }

  // ---- starts -------------------------------------------------------------------

  ghost predicate Resting(s: State) { s.phase.Down? || s.phase.Recovering? }

  /** What may be written after s' was possible before, or does no harm. */
  ghost predicate Follows(created: Heap, s: State, c: nat, s': State, x: nat, n: nat)
    requires n <= |s.log|
  {
    && Leads(s.log[..n], c, x)
    && forall y, w :: Leads(s.log[..n], x, y) && w in Later(s', s.log[..n], x) ==>
      w in Later(s, s.log[..n], c) || Fine(created, s.log[..n], y, w)
  }

  /** A step that appends nothing turns the start c of s into the start x of s'. */
  lemma {:induction false} StartFrom(created: Heap, s: State, c: nat, s': State, x: nat)
    requires GoodStart(created, s, c)
    requires |s'.log| <= |s.log| && s'.log == s.log[..|s'.log|] && s.durable <= s'.durable <= |s'.log|
    requires Survives(s.disk, s.pend, s'.disk) && s'.low <= x <= |s'.log|
    requires Resting(s') || WritesUpTo(s'.log[x..], s'.nextTxn)
    requires forall n :: s'.durable <= n <= |s'.log| ==> Follows(created, s, c, s', x, n)
    ensures GoodStart(created, s', x)
  {
    var m := |s'.log|;
    assert s'.log[..m] == s'.log;
    hide Safe, Later, Sturdy, Survives;
    assert Follows(created, s, c, s', x, m);
    RisesFrom(created, s, c, m, x);
    forall y | Leads(s'.log, x, y) ensures Sturdy(s', y) {
      assert Follows(created, s, c, s', x, m);
      SturdyFrom(created, s, c, s', x, y);
    }
    forall n, y | s'.durable <= n <= m && Leads(s'.log[..n], x, y)
      ensures Safe(created, s'.disk, Later(s', s'.log[..n], x), s'.log[..n], y)
    {
      assert s'.log[..n] == s.log[..n];
      SafeFrom(created, s, c, s', x, n, y);
    }
  }

  lemma {:induction false} LeadsThrough(created: Heap, s: State, c: nat, x: nat, n: nat, y: nat)
    requires GoodStart(created, s, c) && s.durable <= n <= |s.log| && Leads(s.log[..n], c, x) && Leads(s.log[..n], x, y)
    ensures c <= x <= y <= s.durable && Leads(s.log[..n], c, y) && Sturdy(s, y) && Sturdy(s, x)
  {
    hide Installs, Contiguous, Numbered, WritesUpTo, Safe, Later;
    assert Leads(s.log, c, c);
    assert Sturdy(s, c);
    InstallsPrefix(s.log, n, c);
    assert Sturdy(s, x) && c <= x;
    InstallsPrefix(s.log, n, x);
    hide Leads, GoodStart;
    assert s.log[..n][x..] == s.log[x..][..n - x];
    ContiguousPrefix(s.log[x..], n - x);
    Within(s.log[..n], c, x);
    StartLeads(created, s, c, n, x, y);
  }

  lemma {:induction false} StartLeads(created: Heap, s: State, c: nat, n: nat, x: nat, y: nat)
    requires GoodStart(created, s, c) && n <= |s.log| && Leads(s.log, c, x) && Leads(s.log, x, y)
    requires Leads(s.log[..n], c, y)
    requires forall z :: Leads(s.log[..n], c, z) ==> Leads(s.log, c, z)
    ensures x <= y && Sturdy(s, y)
  {}

  lemma {:induction false} SortedPart(ws: seq<Write>, a: seq<Write>, b: seq<Write>)
    requires Sorted(ws) && a + b <= ws
    ensures Sorted(b)
  {
    forall i, j | 0 <= i < j < |b| && b[i].id == 0 && b[j].id == 0 ensures b[i].img.ckpt <= b[j].img.ckpt {
      assert (a + b)[|a| + i] == ws[|a| + i] && (a + b)[|a| + j] == ws[|a| + j];
    }
  }

  lemma {:induction false} RisesFrom(created: Heap, s: State, c: nat, m: nat, x: nat)
    requires GoodStart(created, s, c) && s.durable <= m <= |s.log| && Leads(s.log[..m], c, x)
    ensures Rises(s.log[..m], x)
  {
    var log := s.log[..m];
    assert Leads(log, x, x);
    LeadsThrough(created, s, c, x, m, x);
    assert Sorted(Installs(log, x)) by {
      InstallsPrefix(s.log, m, c);
      assert log[x..] == s.log[x..][..m - x];
      ContiguousPrefix(s.log[x..], m - x);
      hide Leads, Contiguous, Installs, Sorted;
      InstallsSuffix(log, c, x);
      SortedPart(Installs(s.log, c), Installs(log[..x], c), Installs(log, x));
    }
    hide Installs, Contiguous, Sorted;
    forall y, z | Leads(log, x, y) && Leads(log, y, z) ensures y <= z {
      LeadsThrough(created, s, c, x, m, y);
      LeadsThrough(created, s, c, y, m, z);
    }
  }

  lemma {:induction false} SturdyFrom(created: Heap, s: State, c: nat, s': State, x: nat, y: nat)
    requires GoodStart(created, s, c) && s'.low <= x <= |s'.log|
    requires |s'.log| <= |s.log| && s'.log == s.log[..|s'.log|] && s.durable <= s'.durable <= |s'.log|
    requires Resting(s') || WritesUpTo(s'.log[x..], s'.nextTxn)
    requires Leads(s'.log, c, x) && Leads(s'.log, x, y)
    ensures Sturdy(s', y)
  {
    hide GoodStart, Leads, Contiguous, Numbered, WritesUpTo;
    var m := |s'.log|;
    LeadsThrough(created, s, c, x, m, y);
    CutSuffix(s.log, m, y);
    ContiguousPrefix(s.log[y..], m - y);
    NumberedPrefix(s.log[y..], m - y);
    if !Resting(s') { WritesSuffix(s'.log, x, y, s'.nextTxn); }
  }

  lemma {:induction false} SafeFrom(created: Heap, s: State, c: nat, s': State, x: nat, n: nat, y: nat)
    requires GoodStart(created, s, c) && s.durable <= n <= |s.log| && Leads(s.log[..n], x, y)
    requires Survives(s.disk, s.pend, s'.disk) && Follows(created, s, c, s', x, n)
    ensures Safe(created, s'.disk, Later(s', s.log[..n], x), s.log[..n], y)
  {
    LeadsThrough(created, s, c, x, n, y);
    var ws := Later(s, s.log[..n], c);
    assert Safe(created, s.disk, ws, s.log[..n], y);
    assert forall w :: w in s.pend ==> w in ws;
    hide Safe, Survives, Fine, Later, Leads, GoodStart, Sturdy;
    SafeSettle(created, s.disk, ws, s.pend, s'.disk, Later(s', s.log[..n], x), s.log[..n], y);
  }

  // ---- steps that append nothing --------------------------------------------------

  /** The images that a recovery starting now installs are among those it might have installed before. */
  ghost predicate RootKept(s: State, s': State)
    requires 0 in s'.disk && |s'.log| <= |s.log|
  {
    || (s'.pend == [] && Root(s') == s'.disk[0].ckpt)
    || forall n: nat, w :: s'.durable <= n <= |s'.log| && w in Installs(s.log[..n], Root(s')) ==>
      w in Installs(s.log[..n], Root(s))
  }

  /** A sync or a crash leaves some surviving heap and a log no shorter than the durable
      one; other steps leave the file as it is. */
  ghost predicate Moves(s: State, s': State) {
    && |s'.log| <= |s.log| && s'.log == s.log[..|s'.log|] && s.durable <= s'.durable <= |s'.log|
    && Survives(s.disk, s.pend, s'.disk) && (s'.pend == [] || s'.pend == s.pend)
  }

  lemma {:induction false} MovesStart(s: State, s': State, c: nat)
    requires Moves(s, s') && MayStart(s', c)
    ensures MayStart(s, c)
    ensures s'.pend == [] ==> 0 in s'.disk && s'.disk[0].ckpt == c
  {}

  lemma {:induction false} CoreMoves(created: Heap, s: State, s': State)
    requires Core(created, s) && Moves(s, s') && 0 in s'.disk && RootKept(s, s') && Tally(s')
    requires forall c: nat :: MayStart(s', c) && c <= |s'.log| ==>
      s'.low <= c && (Resting(s') || WritesUpTo(s'.log[c..], s'.nextTxn))
    ensures Core(created, s')
  {
    ContiguousPrefix(s.log, |s'.log|);
    hide Contiguous, Survives, WritesUpTo, MayStart, GoodStart, Tally, RootKept;
    forall c: nat | MayStart(s', c) ensures GoodStart(created, s', c) {
      StartMoves(created, s, s', c);
    }
  }

  lemma {:induction false} StartMoves(created: Heap, s: State, s': State, c: nat)
    requires Core(created, s) && Moves(s, s') && 0 in s'.disk && RootKept(s, s') && MayStart(s', c)
    requires c <= |s'.log| ==> s'.low <= c && (Resting(s') || WritesUpTo(s'.log[c..], s'.nextTxn))
    ensures GoodStart(created, s', c)
  {
    MovesStart(s, s', c);
    assert GoodStart(created, s, c);
    assert c <= |s'.log| by { assert Leads(s.log, c, c); assert Sturdy(s, c); }
    hide GoodStart, Sturdy, WritesUpTo, MayStart, Fine, Root;
    forall n: nat | s'.durable <= n <= |s'.log| ensures Follows(created, s, c, s', c, n) {
      assert Leads(s.log[..n], c, c);
      hide Installs, Leads;
    }
    StartFrom(created, s, c, s', c);
  }

  /** Reading back, a page has its synced value or one written since. */
  lemma {:induction false} FileSurvives(disk: Heap, pend: seq<Write>)
    ensures Survives(disk, pend, Apply(disk, pend))
  {
    forall p
      ensures (p in disk && p in Apply(disk, pend) && Apply(disk, pend)[p] == disk[p])
        || (p !in disk && p !in Apply(disk, pend))
              || (p in Apply(disk, pend) && Write(p, Apply(disk, pend)[p]) in pend)
    { ApplyPage(disk, disk, pend, p); }
  }

  /** What reads see in the header is a checkpoint that may be there after a crash. */
  lemma {:induction false} FileStart(s: State)
    requires 0 in s.disk
    ensures 0 in File(s) && MayStart(s, File(s)[0].ckpt)
  {
    FileSurvives(s.disk, s.pend);
  }

  lemma {:induction false} StartWrites(created: Heap, s: State, c: nat)
    requires Core(created, s) && MayStart(s, c)
    ensures s.low <= c <= s.durable && Sturdy(s, c) && Leads(s.log, c, c)
  {
    assert GoodStart(created, s, c) && Leads(s.log, c, c);
  }

  /** Changing the phase, the next id or the tally, or forgetting old segments. */
  lemma {:induction false} CoreRelabel(created: Heap, s: State, s': State)
    requires Core(created, s)
    requires s' == s.(phase := s'.phase, low := s'.low, nextTxn := s'.nextTxn, durable := s'.durable)
    requires s.durable <= s'.durable <= |s.log| && !Resting(s) && !Resting(s') && s.nextTxn <= s'.nextTxn
    requires forall c: nat :: MayStart(s, c) ==> s'.low <= c
    ensures Core(created, s')
  {
    assert s'.log == s.log[..|s'.log|];
    assert s.log[..s'.durable][..s.durable] == s.log[..s.durable];
    CommittedPrefix(s.log[..s'.durable], s.durable);
    assert Root(s') == Root(s);
    forall c: nat | MayStart(s', c) ensures c <= |s'.log| && s'.low <= c && WritesUpTo(s'.log[c..], s'.nextTxn) {
      assert MayStart(s, c);
      StartWrites(created, s, c);
    }
    hide Contiguous, WritesUpTo, MayStart, GoodStart, Committed, Root;
    CoreMoves(created, s, s');
  }

  /** A sync of the file. */
  lemma {:induction false} CoreSyncFile(created: Heap, s: State, s': State)
    requires Core(created, s) && s' == SyncFile(s).(phase := s'.phase, acked := s'.acked)
    requires !Resting(s) && !Resting(s') && Tally(s')
    ensures Core(created, s')
  {
    assert s'.log == s.log[..|s'.log|];
    FileSurvives(s.disk, s.pend);
    FileStart(s);
    assert Apply(s'.disk, []) == s'.disk;
    forall c: nat | MayStart(s', c) ensures c <= |s'.log| && s'.low <= c && WritesUpTo(s'.log[c..], s'.nextTxn) {
      MovesStart(s, s', c);
      StartWrites(created, s, c);
    }
    hide Contiguous, WritesUpTo, MayStart, GoodStart, Committed, Survives, Apply, Tally;
    CoreMoves(created, s, s');
  }

  // ---- page writes ------------------------------------------------------------------

  /** A write is harmless if recovery from each possible checkpoint repeats it, or it changes no bytes. */
  ghost predicate Harmless(created: Heap, s: State, w: Write) {
    forall c: nat, n: nat, x: nat :: MayStart(s, c) && s.durable <= n <= |s.log| && Leads(s.log[..n], c, x) ==>
      Fine(created, s.log[..n], x, w) || w in Later(s, s.log[..n], c)
  }

  /** An old start stays good when a harmless write is issued. */
  lemma {:induction false} StartWrite(created: Heap, s: State, w: Write, s': State, c: nat)
    requires Core(created, s) && MayStart(s, c) && Harmless(created, s, w) && s' == WritePage(s, w).(phase := s'.phase)
    requires Resting(s) == Resting(s')
    requires forall n: nat, y :: s.durable <= n <= |s.log| && y in Installs(s.log[..n], Root(s')) ==>
      y in Installs(s.log[..n], Root(s))
    ensures GoodStart(created, s', c)
  {
    StartWrites(created, s, c);
    assert s'.log == s.log[..|s'.log|] && s'.log[c..] == s.log[c..];
    assert GoodStart(created, s, c);
    hide GoodStart, WritesUpTo, MayStart, Fine, Root, Installs, Contiguous, Numbered;
    forall n: nat | s'.durable <= n <= |s'.log| ensures Follows(created, s, c, s', c, n) {}
    hide Sturdy, Leads, Follows;
    StartFrom(created, s, c, s', c);
  }

  lemma {:induction false} CoreWrite(created: Heap, s: State, w: Write, s': State)
    requires Core(created, s) && Harmless(created, s, w) && s' == WritePage(s, w).(phase := s'.phase)
    requires Resting(s) == Resting(s')
    requires forall n: nat, y :: s.durable <= n <= |s.log| && y in Installs(s.log[..n], Root(s')) ==>
      y in Installs(s.log[..n], Root(s))
    requires w.id == 0 ==> MayStart(s, w.img.ckpt) || GoodStart(created, s', w.img.ckpt)
    ensures Core(created, s')
  {
    forall c: nat | MayStart(s', c) ensures GoodStart(created, s', c) {
      if MayStart(s, c) {
        hide GoodStart, Harmless, Installs, Root, Contiguous, Tally;
        StartWrite(created, s, w, s', c);
      }
    }
    hide GoodStart, Harmless;
  }

  lemma {:induction false} ApplySame(h: Heap, g: Heap, ws: seq<Write>)
    requires SameBytes(h, g)
    ensures SameBytes(Apply(h, ws), Apply(g, ws))
  {
    forall p ensures SamePage(Apply(h, ws), Apply(g, ws), p) {
      assert SamePage(h, g, p);
      ApplyPage(h, g, ws, p);
      ApplyPage(g, h, ws, p);
    }
  }

  // ---- blocks -----------------------------------------------------------------

  lemma {:induction false} BlockScan(t: TxnId, ws: seq<Write>, j: nat)
    requires 0 < j <= |ws| + 1
    ensures Scan(GENESIS, Block(t, ws)[..j]) == History([], Txn(t, ws[..j-1]))
  {
    var b := Block(t, ws);
    if j == 1 {
      assert b[..1] == [TxnBegin(t)];
      assert b[..1][..0] == [];
    } else {
      BlockScan(t, ws, j - 1);
      assert b[..j][..j-1] == b[..j-1] && b[..j][j-1] == PageWrite(t, ws[j-2]);
      assert ws[..j-2] + [ws[j-2]] == ws[..j-1];
    }
  }

  lemma {:induction false} BlockCommits(t: TxnId, ws: seq<Write>, j: nat)
    requires j <= |Block(t, ws)|
    ensures Committed(Block(t, ws)[..j]) == if j == |Block(t, ws)| then [ws] else []
    ensures Contiguous(Block(t, ws)[..j])
  {
    var b := Block(t, ws);
    if 0 < j < |b| { BlockScan(t, ws, j); }
    if j == |b| {
      BlockScan(t, ws, j - 1);
      assert b[..j][..j-1] == b[..j-1] && b[..j][j-1] == TxnCommit(t);
      assert ws[..|ws|] == ws;
    }
  }

  lemma {:induction false} BlockInstalls(log: seq<Rec>, c: nat, cut: nat, t: TxnId, ws: seq<Write>)
    requires c <= cut <= |log| && log[cut..] == Block(t, ws)
    ensures Installs(log, c) == Installs(log[..cut], c) + ws
  {
    BlockCommits(t, ws, |Block(t, ws)|);
    assert Block(t, ws)[..|Block(t, ws)|] == Block(t, ws);
    assert log[c..] == log[..cut][c..] + Block(t, ws);
    hide Block, Committed, Contiguous;
    CommittedAppend(log[..cut][c..], Block(t, ws));
    FlattenAppend(Committed(log[..cut][c..]), [ws]);
    assert Flatten([ws]) == ws by { assert [ws][..0] == []; }
  }

  /** Pages of the transaction that was logged last are replayed. */
  lemma {:induction false} BlockCovers(log: seq<Rec>, c: nat, cut: nat, t: TxnId, ws: seq<Write>, i: nat)
    requires c <= cut <= |log| && log[cut..] == Block(t, ws) && i < |ws|
    ensures Covered(log, c, ws[i].id)
  {
    BlockInstalls(log, c, cut, t, ws);
    TouchesAppend(Installs(log[..cut], c), ws, ws[i].id);
    assert Touches(ws, ws[i].id);
  }

  lemma {:induction false} BlockDatabase(created: Heap, log: seq<Rec>, cut: nat, t: TxnId, ws: seq<Write>)
    requires cut <= |log| && log[cut..] == Block(t, ws)
    ensures Committed(log) == Committed(log[..cut]) + [ws]
    ensures Database(created, log) == Apply(Database(created, log[..cut]), ws)
  {
    BlockCommits(t, ws, |Block(t, ws)|);
    assert Block(t, ws)[..|Block(t, ws)|] == Block(t, ws);
    assert log == log[..cut] + Block(t, ws);
    CommittedAppend(log[..cut], Block(t, ws));
    FlattenAppend(Committed(log[..cut]), [ws]);
    assert Flatten([ws]) == ws by { assert [ws][..0] == []; }
    ApplyAppend(created, Flatten(Committed(log[..cut])), ws);
  }

  lemma {:induction false} BlockAt(t: TxnId, ws: seq<Write>, ckpt: nat, j: nat)
    requires j < |Block(t, ws)| && Images(ws, ckpt)
    ensures var r := Block(t, ws)[j];
      && (j == 0 ==> r == TxnBegin(t)) && (j > 0 ==> (r.PageWrite? || r.TxnCommit?) && r.tx == t)
      && (j > 0 ==> InTxn(Block(t, ws)[j-1]) && Block(t, ws)[j-1].tx == t)
      && (r.PageWrite? && r.w.id == 0 ==> r.w.img.ckpt == ckpt)
  {}

  // ---- steps that append a record -------------------------------------------------

  /** What a record must satisfy for the log to stay replayable from x. */
  ghost predicate Fitting(s: State, x: nat, r: Rec) {
    && (r.PageWrite? || r.TxnCommit? ==> x < |s.log| && InTxn(s.log[|s.log|-1]) && s.log[|s.log|-1].tx == r.tx)
    && (r.TxnBegin? ==> forall i :: x <= i < |s.log| && s.log[i].PageWrite? ==> s.log[i].tx < r.tx)
    && (r.PageWrite? ==> r.tx <= s.nextTxn)
  }

  lemma {:induction false} SuffixAppend(s: State, x: nat, r: Rec)
    requires Fitting(s, x, r) && x <= |s.log|
    ensures Contiguous(s.log[x..]) ==> Contiguous(s.log[x..] + [r])
    ensures Numbered(s.log[x..]) ==> Numbered(s.log[x..] + [r])
    ensures WritesUpTo(s.log[x..], s.nextTxn) ==> WritesUpTo(s.log[x..] + [r], s.nextTxn)
  {
    var b := s.log[x..];
    assert forall i :: 0 <= i < |b| ==> b[i] == s.log[x + i];
  }

  lemma {:induction false} SturdyAppend(s: State, x: nat, r: Rec, s': State)
    requires Sturdy(s, x) && Fitting(s, x, r) && s' == Append(s, r).(phase := s'.phase) && !Resting(s)
    ensures Sturdy(s', x) && Contiguous(s.log[x..] + [r])
  {
    hide Contiguous, Numbered, WritesUpTo, Fitting;
    SuffixAppend(s, x, r);
    assert s'.log[x..] == s.log[x..] + [r];
  }

  lemma {:induction false} ContiguousAppend(s: State, c: nat, r: Rec)
    requires Contiguous(s.log) && Fitting(s, c, r)
    ensures Contiguous(s.log + [r])
  {}

  /** The commit of ds, whose header has checkpoint y, keeps the start c. */
  ghost predicate Joins(created: Heap, s: State, c: nat, y: nat, ds: seq<Write>) {
    && MayStart(s, y) && (forall x: nat :: Leads(s.log, c, x) ==> x <= y)
    && forall p :: Touches(ds, p) || SafePage(created, s.disk, Later(s, s.log, c), s.log, y, p)
  }

  ghost predicate Adds(created: Heap, s: State, r: Rec) {
    && Sorted(Flatten(Gain(s.log, r)))
    && forall c: nat, w :: MayStart(s, c) && w in Flatten(Gain(s.log, r)) && w.id == 0 ==>
      Joins(created, s, c, w.img.ckpt, Flatten(Gain(s.log, r)))
  }

  /** Appending r is possible from every start. */
  ghost predicate Fits(s: State, r: Rec) {
    forall c: nat, x: nat :: MayStart(s, c) && Leads(s.log, c, x) ==> Fitting(s, x, r)
  }

  lemma {:induction false} LeadsGrow(created: Heap, s: State, c: nat, r: Rec, x: nat)
    requires Core(created, s) && MayStart(s, c) && Fits(s, r) && !Resting(s) && Adds(created, s, r)
    requires Leads(s.log + [r], c, x)
    ensures Leads(s.log, c, x) || Joins(created, s, c, x, Flatten(Gain(s.log, r)))
    ensures Sturdy(s, x) && Fitting(s, x, r) && Installs(s.log + [r], c) == Installs(s.log, c) + Flatten(Gain(s.log, r))
  {
    StartWrites(created, s, c);
    assert GoodStart(created, s, c);
    SturdyAppend(s, c, r, Append(s, r));
    InstallsGrow(s.log, c, r);
    hide GoodStart, Sturdy, Fitting, Installs, Gain, Flatten;
    if !Leads(s.log, c, x) {
      var w :| w in Installs(s.log + [r], c) && w.id == 0 && w.img.ckpt == x;
      assert Joins(created, s, c, x, Flatten(Gain(s.log, r)));
      StartWrites(created, s, x);
    }
    hide Joins;
    if Leads(s.log, c, x) { GoodSturdy(created, s, c, x); }
  }

  lemma {:induction false} GoodSturdy(created: Heap, s: State, c: nat, x: nat)
    requires GoodStart(created, s, c) && Leads(s.log, c, x)
    ensures Sturdy(s, x) && c <= x
  {
    assert Leads(s.log, c, c);
  }

  lemma {:induction false} SortedAppend(a: seq<Write>, b: seq<Write>)
    requires Sorted(a) && Sorted(b)
    requires forall v, w :: v in a && w in b && v.id == 0 && w.id == 0 ==> v.img.ckpt <= w.img.ckpt
    ensures Sorted(a + b)
  {}

  lemma {:induction false} RisesAppend(created: Heap, s: State, c: nat, r: Rec)
    requires Core(created, s) && MayStart(s, c) && Fits(s, r) && !Resting(s) && Adds(created, s, r)
    ensures Rises(s.log + [r], c)
  {
    var log, d := s.log + [r], Flatten(Gain(s.log, r));
    assert Leads(log, c, c);
    LeadsGrow(created, s, c, r, c);
    assert GoodStart(created, s, c);
    assert Sorted(Installs(log, c)) by {
      hide Gain, Flatten, Installs, Core, Sorted, MayStart, Sturdy;
      forall v, w | v in Installs(s.log, c) && w in d && v.id == 0 && w.id == 0 ensures v.img.ckpt <= w.img.ckpt {
        assert Leads(s.log, c, v.img.ckpt) && Joins(created, s, c, w.img.ckpt, d);
      }
      SortedAppend(Installs(s.log, c), d);
    }
    hide Gain, Flatten, Installs, Core, Sorted, Sturdy, Fitting;
    forall x, y | Leads(log, c, x) && Leads(log, x, y) ensures x <= y { RiseAppend(created, s, c, r, x, y); }
  }

  lemma {:induction false} RiseAppend(created: Heap, s: State, c: nat, r: Rec, x: nat, y: nat)
    requires Core(created, s) && MayStart(s, c) && Fits(s, r) && !Resting(s) && Adds(created, s, r)
    requires Leads(s.log + [r], c, x) && Leads(s.log + [r], x, y)
    ensures x <= y
  {
    var d := Flatten(Gain(s.log, r));
    LeadsGrow(created, s, c, r, x);
    SturdyAppend(s, x, r, Append(s, r));
    InstallsGrow(s.log, x, r);
    assert GoodStart(created, s, c);
    if Leads(s.log, x, y) {
      if Leads(s.log, c, x) {} else { assert GoodStart(created, s, x); GoodSturdy(created, s, x, y); }
    } else {
      hide Gain, Flatten, Installs, Core, Sturdy, Fitting;
      var w :| w in Installs(s.log + [r], x) && w.id == 0 && w.img.ckpt == y;
      assert w in d;
      assert Joins(created, s, c, y, d);
      if !Leads(s.log, c, x) { OneHeader(created, s, c, r, x, y); }
    }
  }

  lemma {:induction false} OneHeader(created: Heap, s: State, c: nat, r: Rec, x: nat, y: nat)
    requires Joins(created, s, c, x, Flatten(Gain(s.log, r))) && Joins(created, s, c, y, Flatten(Gain(s.log, r)))
    requires Adds(created, s, r) && exists w :: w in Flatten(Gain(s.log, r)) && w.id == 0 && w.img.ckpt == y
    ensures x <= y
  {
    var w :| w in Flatten(Gain(s.log, r)) && w.id == 0 && w.img.ckpt == y;
    assert Leads(s.log, x, x);
    assert Joins(created, s, x, y, Flatten(Gain(s.log, r)));
  }

  lemma {:induction false} SafeAppend(created: Heap, s: State, c: nat, r: Rec, s': State, x: nat)
    requires Core(created, s) && MayStart(s, c) && Fits(s, r) && !Resting(s) && !Resting(s') && Adds(created, s, r)
    requires s' == Append(s, r).(phase := s'.phase) && Leads(s'.log, c, x)
    ensures Safe(created, s'.disk, Later(s', s'.log, c), s'.log, x)
  {
    var ws, d := Later(s, s.log, c), Flatten(Gain(s.log, r));
    LeadsGrow(created, s, c, r, x);
    SturdyAppend(s, x, r, s');
    assert forall p :: Touches(d, p) || SafePage(created, s.disk, ws, s.log, x, p) by {
      hide SafePage, Gain, Flatten, Touches, Sturdy;
      if Leads(s.log, c, x) { SafeNow(created, s, c, x); }
    }
    SafeGrows(created, s.disk, ws, s.log, x, r);
    RootInstallsGrow(created, s, r);
    assert Root(s') == Root(s);
    hide Core, Gain, Flatten, Touches, Installs, Root, SafePage;
    SafeLess(created, s.disk, ws + d, s'.log, x, Later(s', s'.log, c));
  }

  lemma {:induction false} SafeNow(created: Heap, s: State, c: nat, x: nat)
    requires Core(created, s) && MayStart(s, c) && Leads(s.log, c, x)
    ensures Safe(created, s.disk, Later(s, s.log, c), s.log, x)
  {
    assert s.log[..|s.log|] == s.log;
    assert GoodStart(created, s, c);
  }

  lemma {:induction false} SafeLess(created: Heap, disk: Heap, ws: seq<Write>, log: seq<Rec>, c: nat, ws': seq<Write>)
    requires Safe(created, disk, ws, log, c) && forall w :: w in ws' ==> w in ws
    ensures Safe(created, disk, ws', log, c)
  {
    hide Database, Covered;
    forall p ensures SafePage(created, disk, ws', log, c, p) { assert SafePage(created, disk, ws, log, c, p); }
  }

  lemma {:induction false} RootInstallsGrow(created: Heap, s: State, r: Rec)
    requires Core(created, s) && Fits(s, r) && !Resting(s)
    ensures Installs(s.log + [r], Root(s)) == Installs(s.log, Root(s)) + Flatten(Gain(s.log, r))
  {
    FileStart(s);
    StartWrites(created, s, Root(s));
    SturdyAppend(s, Root(s), r, Append(s, r));
    InstallsGrow(s.log, Root(s), r);
  }

  lemma {:induction false} StartAppend(created: Heap, s: State, c: nat, r: Rec, s': State)
    requires Core(created, s) && MayStart(s, c) && Fits(s, r) && !Resting(s) && !Resting(s') && Adds(created, s, r)
    requires s' == Append(s, r).(phase := s'.phase)
    ensures GoodStart(created, s', c)
  {
    RisesAppend(created, s, c, r);
    hide Core, Rises, Fits, Adds, Safe, Leads, MayStart;
    forall x | Leads(s'.log, c, x) ensures Sturdy(s', x) {
      LeadsGrow(created, s, c, r, x);
      SturdyAppend(s, x, r, s');
    }
    hide Sturdy, Fitting;
    forall n, x | s'.durable <= n <= |s'.log| && Leads(s'.log[..n], c, x)
      ensures Safe(created, s'.disk, Later(s', s'.log[..n], c), s'.log[..n], x)
    {
      if n <= |s.log| { SafeBefore(created, s, c, r, s', n, x); }
      else {
        assert s'.log[..n] == s'.log;
        SafeAppend(created, s, c, r, s', x);
      }
    }
  }

  lemma {:induction false} SafeBefore(created: Heap, s: State, c: nat, r: Rec, s': State, n: nat, x: nat)
    requires Core(created, s) && MayStart(s, c) && s' == Append(s, r).(phase := s'.phase)
    requires s.durable <= n <= |s.log| && Leads(s'.log[..n], c, x) && !Resting(s) && !Resting(s')
    ensures Safe(created, s'.disk, Later(s', s'.log[..n], c), s'.log[..n], x)
  {
    assert s'.log[..n] == s.log[..n];
    assert GoodStart(created, s, c);
  }

  lemma {:induction false} CoreAppend(created: Heap, s: State, r: Rec, s': State)
    requires Core(created, s) && Fits(s, r) && !Resting(s) && !Resting(s') && Adds(created, s, r)
    requires s' == Append(s, r).(phase := s'.phase) && |Committed(s'.log)| <= s.acked + 1
    ensures Core(created, s')
  {
    assert MayStart(s, s.disk[0].ckpt) && Leads(s.log, s.disk[0].ckpt, s.disk[0].ckpt);
    ContiguousAppend(s, s.disk[0].ckpt, r);
    assert s'.log[..s'.durable] == s.log[..s.durable];
    hide GoodStart, Fits, Committed, Contiguous, Adds;
    forall c: nat | MayStart(s', c) ensures GoodStart(created, s', c) {
      assert MayStart(s, c);
      StartAppend(created, s, c, r, s');
    }
  }
}
