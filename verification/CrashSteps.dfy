/**
 * Every step of the machine keeps its invariant.
 */
module CrashSteps {
  import opened Recovery
  import opened CrashMachine
  import opened CrashStarts

  // ---- reading the file --------------------------------------------------------

  lemma {:induction false} OnlyStart(s: State, c: nat)
    requires s.pend == [] && MayStart(s, c)
    ensures 0 in s.disk && c == s.disk[0].ckpt
  {}

  lemma {:induction false} FileEmpty(s: State)
    requires s.pend == []
    ensures File(s) == s.disk
  {}

  /** Reading through the waiting header changes no bytes. */
  lemma {:induction false} FileWaiting(s: State)
    requires Waiting(s)
    ensures SameBytes(File(s), s.disk)
    ensures s.pend != [] ==> 0 in File(s) && File(s)[0] == s.pend[0].img
    ensures forall c, w :: MayStart(s, c) && 0 in File(s) && c != File(s)[0].ckpt && w in s.pend ==>
      w.id == 0 && 0 in s.disk && c == s.disk[0].ckpt && w.img.body == s.disk[0].body
  {
    if s.pend != [] {
      assert s.pend == [s.pend[0]] && s.pend[..0] == [];
      assert Apply(s.disk, s.pend[..0]) == s.disk;
      assert File(s) == s.disk[0 := s.pend[0].img];
    } else {
      FileEmpty(s);
      forall c | MayStart(s, c) ensures 0 in s.disk && c == s.disk[0].ckpt { OnlyStart(s, c); }
    }
  }

  lemma {:induction false} FileSettled(created: Heap, s: State)
    requires Settled(created, s)
    ensures SameBytes(File(s), Db(created, s))
  {
    FileWaiting(s);
    hide Waiting, Database, File;
    forall p ensures SamePage(File(s), Db(created, s), p) {
      assert SamePage(File(s), s.disk, p) && SamePage(s.disk, Db(created, s), p);
    }
  }

  lemma {:induction false} KeepsBeginCommit(created: Heap, s: State, s': State, ws: seq<Write>)
    requires Inv(created, s) && BeginCommit(s, s', ws) && Careful(s, ws)
    ensures Inv(created, s')
  {
    assert Core(created, s') by {
      forall c: nat | MayStart(s, c) ensures s'.low <= c { StartWrites(created, s, c); }
      hide GoodStart, MayStart, Root;
      CoreRelabel(created, s, s');
    }
    assert Cut(s') == |s.log| && s'.log[Cut(s')..] == [] && s'.log[..Cut(s')] == s.log;
    forall c: nat | MayStart(s', c) && c <= Cut(s') ensures WritesUpTo(s'.log[c..Cut(s')], s'.nextTxn - 1) {
      assert MayStart(s, c);
      StartWrites(created, s, c);
      assert s'.log[c..Cut(s')] == s.log[c..];
    }
    hide Core, Block, SameBytes, Committed, WritesUpTo, Images;
    SettledAgain(created, s, Before(s'));
    CarefulAgain(s, Before(s'), ws);
  }

  lemma {:induction false} SettledAgain(created: Heap, s: State, s': State)
    requires Settled(created, s) && !s.phase.Recovering? && !s'.phase.Recovering?
    requires s' == s.(phase := s'.phase, durable := s'.durable, low := s'.low, nextTxn := s'.nextTxn)
    ensures Settled(created, s')
  {
    hide SameBytes, Committed, Database, Leads, Installs;
    forall c: nat, x: nat | MayStart(s', c) && Leads(s'.log, c, x) ensures x <= Root(s') {
      assert MayStart(s, c);
    }
  }

  lemma {:induction false} CarefulAgain(s: State, s': State, ws: seq<Write>)
    requires Careful(s, ws) && s' == s.(phase := s'.phase, nextTxn := s'.nextTxn, durable := s'.durable)
    ensures Careful(s', ws)
  {
    hide Installs, Touches;
    forall c, w | MayStart(s', c) && c != File(s')[0].ckpt && w in Installs(s'.log, c) && !Touches(ws, w.id)
      ensures w.id in File(s') && File(s')[w.id].body == w.img.body
    {
      assert MayStart(s, c);
    }
  }

  // ---- logging ------------------------------------------------------------------

  /** The block has been logged up to the next record. */
  lemma {:induction false} LoggedSoFar(created: Heap, s: State)
    requires PhaseOk(created, s) && s.phase.Logging? && s.phase.todo != []
    ensures 0 <= Cut(s) <= |s.log| && s.phase.todo[0] == Block(s.nextTxn, s.phase.ws)[|s.log| - Cut(s)]
      && |s.log| - Cut(s) < |Block(s.nextTxn, s.phase.ws)|
    ensures s.log[Cut(s)..] == Block(s.nextTxn, s.phase.ws)[..|s.log| - Cut(s)]
  {
    hide Block, Settled, Careful, Images;
    var b, d, todo := Block(s.nextTxn, s.phase.ws), s.log[Cut(s)..], s.phase.todo;
    assert (d + todo)[..|d|] == d && (d + todo)[|d|] == todo[0];
  }

  /** What the log commits before and after the next record of a block. */
  lemma {:induction false} BlockGain(log: seq<Rec>, cut: nat, t: TxnId, ws: seq<Write>)
    requires cut <= |log| && |log| - cut < |Block(t, ws)| && log[cut..] == Block(t, ws)[..|log| - cut]
    ensures var j := |log| - cut;
      && Committed(log) == Committed(log[..cut])
      && Gain(log, Block(t, ws)[j]) == if j + 1 == |Block(t, ws)| then [ws] else []
  {
    hide Gain, Committed, Contiguous;
    var b, j := Block(t, ws), |log| - cut;
    var r := b[j];
    assert log == log[..cut] + b[..j] && log + [r] == log[..cut] + b[..j+1];
    BlockCommits(t, ws, j);
    BlockCommits(t, ws, j + 1);
    hide Block;
    CommittedAppend(log[..cut], b[..j]);
    CommittedAppend(log[..cut], b[..j+1]);
    CommitGrows(log, r);
    SameTail(Committed(log), Gain(log, r), if j + 1 == |b| then [ws] else []);
  }

  lemma {:induction false} BlockGains(created: Heap, s: State)
    requires PhaseOk(created, s) && s.phase.Logging? && s.phase.todo != []
    ensures var last := |s.log| - Cut(s) + 1 == |Block(s.nextTxn, s.phase.ws)|;
      && 0 <= Cut(s) <= |s.log| && Committed(s.log) == Committed(s.log[..Cut(s)])
      && Gain(s.log, s.phase.todo[0]) == if last then [s.phase.ws] else []
  {
    hide PhaseOk, Block, Gain, Committed;
    LoggedSoFar(created, s);
    BlockGain(s.log, Cut(s), s.nextTxn, s.phase.ws);
  }

  lemma {:induction false} NextFits(created: Heap, s: State)
    requires Inv(created, s) && s.phase.Logging? && s.phase.todo != []
    ensures Fits(s, s.phase.todo[0])
  {
    LoggedSoFar(created, s);
    FileStart(s);
    forall c: nat, x: nat | MayStart(s, c) && Leads(s.log, c, x) ensures Fitting(s, x, s.phase.todo[0]) {
      hide Core, Settled, Careful, MayStart, Leads, Block;
      StartWrites(created, s, c);
      LeadsSturdy(created, s, c, x);
      NextFitting(s, c, x);
    }
  }

  lemma {:induction false} LeadsSturdy(created: Heap, s: State, c: nat, x: nat)
    requires Core(created, s) && MayStart(s, c) && Leads(s.log, c, x)
    ensures Sturdy(s, x) && c <= x <= s.durable
  {
    assert GoodStart(created, s, c);
    GoodSturdy(created, s, c, x);
  }

  lemma {:induction false} NextFitting(s: State, c: nat, x: nat)
    requires s.phase.Logging? && s.phase.todo != [] && c <= x <= s.durable <= Cut(s) <= |s.log| && s.nextTxn > 0
    requires WritesUpTo(s.log[c..Cut(s)], s.nextTxn - 1) && 0 in File(s) && Images(s.phase.ws, File(s)[0].ckpt)
    requires var j, b := |s.log| - Cut(s), Block(s.nextTxn, s.phase.ws);
      j < |b| && s.phase.todo[0] == b[j] && s.log[Cut(s)..] == b[..j]
    ensures Fitting(s, x, s.phase.todo[0])
  {
    var r, j, cut := s.phase.todo[0], |s.log| - Cut(s), Cut(s);
    BlockAt(s.nextTxn, s.phase.ws, File(s)[0].ckpt, j);
    hide Block, Images;
    if j == 0 {
      forall i | x <= i < |s.log| && s.log[i].PageWrite? ensures s.log[i].tx < r.tx {
        assert s.log[c..cut][i - c] == s.log[i];
      }
    } else {
      assert s.log[|s.log|-1] == s.log[cut..][j-1] == Block(s.nextTxn, s.phase.ws)[..j][j-1];
    }
  }

  /** A careful commit may be followed by a recovery from any checkpoint that is in the file. */
  lemma {:induction false} CommitJoins(created: Heap, s: State, c: nat)
    requires Inv(created, s) && s.phase.Logging? && s.phase.todo != [] && MayStart(s, c) && 0 in File(s)
    requires |s.log| - Cut(s) + 1 == |Block(s.nextTxn, s.phase.ws)|
    ensures Joins(created, s, c, File(s)[0].ckpt, s.phase.ws)
  {
    hide Core, Installs, SafePage, Block, Committed, Contiguous, Numbered, WritesUpTo, Tally, GoodStart;
    var ws, y, cut := s.phase.ws, File(s)[0].ckpt, Cut(s);
    var b := Before(s);
    BlockGains(created, s);
    LoggedStarts(created, s, c);
    InstallsSame(s.log, cut, c);
    InstallsSame(s.log, cut, y);
    assert MayStart(b, c) && Root(b) == y;
    forall x: nat | Leads(s.log, c, x) ensures x <= y { assert Leads(b.log, c, x); }
    hide MayStart, Newest, File;
    forall p ensures Touches(ws, p) || SafePage(created, s.disk, Later(s, s.log, c), s.log, y, p) {
      if c == y { assert Leads(s.log, c, c); SafeNow(created, s, c, c); }
      else if !Touches(ws, p) { OutsideSafe(created, s, c, p); }
    }
  }

  lemma {:induction false} LoggedStarts(created: Heap, s: State, c: nat)
    requires Inv(created, s) && s.phase.Logging? && MayStart(s, c)
    ensures 0 in File(s) && MayStart(s, File(s)[0].ckpt) && c <= Cut(s) && File(s)[0].ckpt <= Cut(s) <= |s.log|
    ensures Contiguous(s.log[c..]) && Contiguous(s.log[File(s)[0].ckpt..])
  {
    hide Installs, Block, Committed, Contiguous, Numbered, WritesUpTo, Tally, GoodStart, MayStart, File, Settled;
    hide Careful;
    FileStart(s);
    StartWrites(created, s, c);
    StartWrites(created, s, File(s)[0].ckpt);
  }

  lemma {:induction false} OutsideSafe(created: Heap, s: State, c: nat, p: PageId)
    requires s.phase.Logging? && 0 <= Cut(s) <= |s.log| && Committed(s.log) == Committed(s.log[..Cut(s)])
    requires Settled(created, Before(s)) && Careful(Before(s), s.phase.ws) && Images(s.phase.ws, File(s)[0].ckpt)
    requires MayStart(s, c) && c != File(s)[0].ckpt && !Touches(s.phase.ws, p)
    requires Installs(Before(s).log, c) == Installs(s.log, c)
      && Installs(Before(s).log, File(s)[0].ckpt) == Installs(s.log, File(s)[0].ckpt)
    ensures SafePage(created, s.disk, Later(s, s.log, c), s.log, File(s)[0].ckpt, p)
  {
    var b, ws, y := Before(s), s.phase.ws, File(s)[0].ckpt;
    assert Db(created, b) == Db(created, s);
    assert MayStart(b, c);
    FileSettled(created, b);
    FileWaiting(b);
    assert b.pend != [] by { if b.pend == [] { FileEmpty(b); OnlyStart(b, c); } }
    assert Root(s) == y && Installs(s.log, y) == [];
    assert p != 0 by { assert Touches(ws, ws[|ws|-1].id); }
    hide Installs, Newest, Touches, Database, Committed, Images, File, MayStart;
    assert SamePage(s.disk, Db(created, s), p) && SamePage(File(b), Db(created, s), p);
    forall w | w in Later(s, s.log, c) && w.id == p ensures Right(Db(created, s), w) {
      assert w in Installs(s.log, c);
    }
  }

  lemma {:induction false} FlattenOne(a: seq<Write>)
    ensures Flatten([a]) == a
  {
    assert [a][..0] == [] && [] + a == a;
  }

  lemma {:induction false} NextAdds(created: Heap, s: State)
    requires Inv(created, s) && s.phase.Logging? && s.phase.todo != []
    ensures Adds(created, s, s.phase.todo[0])
  {
    hide GoodStart, Tally, Contiguous, MayStart, Settled, Careful, Joins, Block, Gain, Committed, WritesUpTo;
    var ws := s.phase.ws;
    BlockGains(created, s);
    FlattenOne(ws);
    FileStart(s);
    hide Core;
    if Gain(s.log, s.phase.todo[0]) == [ws] {
      forall c: nat, w | MayStart(s, c) && w in ws && w.id == 0 ensures Joins(created, s, c, w.img.ckpt, ws) {
        CommitJoins(created, s, c);
      }
    }
  }

  lemma {:induction false} KeepsLogRecord(created: Heap, s: State, s': State)
    requires Inv(created, s) && LogRecord(s, s')
    ensures Inv(created, s')
  {
    hide PhaseOk, Fits, Adds, Block, Committed, GoodStart, Gain;
    var r := s.phase.todo[0];
    NextFits(created, s);
    NextAdds(created, s);
    BlockGains(created, s);
    CommitGrows(s.log, r);
    LoggingTally(created, s);
    CoreAppend(created, s, r, s');
    LogRecordPhase(created, s, s');
  }

  lemma {:induction false} LoggingTally(created: Heap, s: State)
    requires PhaseOk(created, s) && s.phase.Logging?
    ensures 0 <= Cut(s) <= |s.log| && |Committed(s.log[..Cut(s)])| == s.acked
  {}

  lemma {:induction false} LogRecordPhase(created: Heap, s: State, s': State)
    requires PhaseOk(created, s) && LogRecord(s, s')
    ensures PhaseOk(created, s')
  {
    hide Block, Committed, Images, WritesUpTo, Settled, Careful, MayStart;
    assert s'.log[..Cut(s)] == s.log[..Cut(s)] && s'.log[Cut(s)..] == s.log[Cut(s)..] + [s.phase.todo[0]];
    assert Cut(s') == Cut(s) && s'.log[Cut(s)..] + s'.phase.todo == s.log[Cut(s)..] + s.phase.todo;
    SettledAgain(created, Before(s), Before(s'));
    CarefulAgain(Before(s), Before(s'), s.phase.ws);
    StillWrites(s, s', Cut(s));
  }

  lemma {:induction false} StillWrites(s: State, s': State, cut: nat)
    requires s'.disk == s.disk && s'.pend == s.pend && s'.nextTxn == s.nextTxn > 0
    requires cut <= |s.log| && cut <= |s'.log| && s'.log[..cut] == s.log[..cut]
    requires forall c: nat :: MayStart(s, c) && c <= cut ==> WritesUpTo(s.log[c..cut], s.nextTxn - 1)
    ensures forall c: nat :: MayStart(s', c) && c <= cut ==> WritesUpTo(s'.log[c..cut], s.nextTxn - 1)
  {
    forall c: nat | MayStart(s', c) && c <= cut ensures WritesUpTo(s'.log[c..cut], s.nextTxn - 1) {
      assert MayStart(s, c);
      assert s'.log[c..cut] == s'.log[..cut][c..] == s.log[c..cut];
    }
  }

  lemma {:induction false} KeepsLogSynced(created: Heap, s: State, s': State)
    requires Inv(created, s) && LogSynced(s, s')
    ensures Inv(created, s')
  {
    hide PhaseOk, GoodStart, Block, Committed, Contiguous;
    forall c: nat | MayStart(s, c) ensures s'.low <= c { StartWrites(created, s, c); }
    hide MayStart;
    CoreRelabel(created, s, s');
    WholeBlock(created, s);
    BlockDatabase(created, s.log, Cut(s), s.nextTxn, s.phase.ws);
    NewestAfter(created, s, s');
    FileStart(s);
    hide Core, Newest;
    LogSyncedPhase(created, s, s');
  }

  lemma {:induction false} LogSyncedPhase(created: Heap, s: State, s': State)
    requires PhaseOk(created, s) && LogSynced(s, s') && Newest(s', Cut(s)) && 0 in File(s)
    requires Newest(s', File(s)[0].ckpt) && Committed(s.log) == Committed(s.log[..Cut(s)]) + [s.phase.ws]
    ensures PhaseOk(created, s')
  {
    hide Block, Committed, WritesUpTo, Settled, Careful, MayStart, Newest, SameBytes, Database;
    WholeBlock(created, s);
    FileSettled(created, Before(s));
    LoggingTally(created, s);
    assert s'.pend[|s'.pend|..] == [] && s'.pend[..|s'.pend|] == s'.pend;
    assert s'.phase.ws[..0] == [];
  }

  lemma {:induction false} WholeBlock(created: Heap, s: State)
    requires PhaseOk(created, s) && s.phase.Logging? && s.phase.todo == []
    ensures 0 <= Cut(s) <= |s.log| && s.log[Cut(s)..] == Block(s.nextTxn, s.phase.ws)
  {
    hide Block, Settled, Careful, Images;
    assert s.log[Cut(s)..] + [] == s.log[Cut(s)..];
  }

  lemma {:induction false} NewestAfter(created: Heap, s: State, s': State)
    requires Inv(created, s) && LogSynced(s, s')
    requires Committed(s.log) == Committed(s.log[..Cut(s)]) + [s.phase.ws]
    ensures Newest(s', Cut(s)) && Newest(s', File(s)[0].ckpt)
  {
    FileStart(s);
    forall c: nat, x: nat | MayStart(s', c) && Leads(s'.log, c, x) ensures x <= Cut(s) && x <= File(s)[0].ckpt {
      assert MayStart(s, c) && Leads(s.log, c, x);
      LeadsSturdy(created, s, c, x);
      LeadsTop(created, s, c, x);
    }
  }

  lemma {:induction false} LeadsTop(created: Heap, s: State, c: nat, x: nat)
    requires Inv(created, s) && s.phase.Logging? && s.phase.todo == [] && 0 in File(s)
    requires MayStart(s, c) && Leads(s.log, c, x) && Committed(s.log) == Committed(s.log[..Cut(s)]) + [s.phase.ws]
    ensures x <= File(s)[0].ckpt
  {
    hide Block, Committed, WritesUpTo, Installs, GoodStart, Contiguous, Numbered;
    var cut, ws, b := Cut(s), s.phase.ws, Before(s);
    StartWrites(created, s, c);
    assert MayStart(b, c) && Root(b) == File(s)[0].ckpt;
    WholeBlock(created, s);
    BlockInstalls(s.log, c, cut, s.nextTxn, ws);
    hide Core, Sturdy, MayStart, File;
    if x != c {
      var w :| w in Installs(s.log, c) && w.id == 0 && w.img.ckpt == x;
      if w in Installs(b.log, c) { assert Leads(b.log, c, x); }
    } else { assert Leads(b.log, c, c); }
  }

  // ---- publishing ---------------------------------------------------------------

  lemma {:induction false} WritingFile(s: State, base: Heap, ws: seq<Write>)
    requires Writing(s, base, ws)
    ensures File(s) == Apply(base, ws)
  {
    var n := |s.pend| - |ws|;
    assert s.pend == s.pend[..n] + s.pend[n..];
    ApplyAppend(s.disk, s.pend[..n], ws);
  }

  lemma {:induction false} WritingMore(s: State, s': State, base: Heap, ws: seq<Write>, k: nat)
    requires k < |ws| && Writing(s, base, ws[..k]) && s'.pend == s.pend + [ws[k]] && s'.disk == s.disk
    ensures Writing(s', base, ws[..k+1])
  {
    var n := |s.pend| - k;
    assert s'.pend[n..] == s.pend[n..] + [ws[k]] && ws[..k+1] == ws[..k] + [ws[k]] && s'.pend[..n] == s.pend[..n];
  }

  lemma {:induction false} StillCommitting(created: Heap, s: State, s': State, ws: seq<Write>, base: Heap)
    requires Committing(created, s, ws, base) && forall c :: MayStart(s', c) ==> MayStart(s, c)
    requires s'.log == s.log && s'.durable == s.durable && s'.nextTxn == s.nextTxn && s'.acked == s.acked
    ensures Committing(created, s', ws, base)
  {
    hide Block, Committed, Images, SameBytes, Database, MayStart;
  }

  /** A page image of the transaction being published may be written. */
  lemma {:induction false} BlockHarmless(created: Heap, s: State, ws: seq<Write>, base: Heap, i: nat)
    requires Committing(created, s, ws, base) && i < |ws|
    ensures Harmless(created, s, ws[i])
  {
    hide Database, SameBytes, Images, Committed, Block, MayStart, Leads, Covered, Later;
    var cut := |s.log| - |Block(s.nextTxn, ws)|;
    assert s.log[..|s.log|] == s.log;
    forall c: nat, n: nat, x: nat | MayStart(s, c) && s.durable <= n <= |s.log| && Leads(s.log[..n], c, x)
      ensures Fine(created, s.log[..n], x, ws[i])
    {
      assert Newest(s, cut);
      BlockCovers(s.log, x, cut, s.nextTxn, ws, i);
    }
  }

  lemma {:induction false} WriteOther(s: State, w: Write, s': State)
    requires s' == WritePage(s, w).(phase := s'.phase) && w.id != 0 && !Resting(s) && !Resting(s')
    ensures Root(s') == Root(s) && forall c :: MayStart(s', c) ==> MayStart(s, c)
  {
    assert s'.pend[..|s'.pend|-1] == s.pend;
    assert forall v :: v in s'.pend <==> v in s.pend || v == w;
  }

  lemma {:induction false} KeepsPublishPage(created: Heap, s: State, s': State)
    requires Inv(created, s) && PublishPage(s, s')
    ensures Inv(created, s')
  {
    var ws, k, base := s.phase.ws, s.phase.k, s.phase.base;
    BlockHarmless(created, s, ws, base, k);
    assert ws[k].id != 0;
    WriteOther(s, ws[k], s');
    hide Harmless, Committing, MayStart, Root, GoodStart, Tally, Contiguous, Writing;
    CoreWrite(created, s, ws[k], s');
    hide Core;
    StillCommitting(created, s, s', ws, base);
    WritingMore(s, s', base, ws, k);
  }

  lemma {:induction false} KeepsSyncData(created: Heap, s: State, s': State)
    requires Inv(created, s) && SyncData(s, s')
    ensures Inv(created, s')
  {
    var ws, k, base := s.phase.ws, s.phase.k, s.phase.base;
    hide GoodStart, Contiguous, Writing, Committing, Committed;
    assert Tally(s');
    FileStart(s);
    forall c | MayStart(s', c) ensures MayStart(s, c) { OnlyStart(s', c); }
    hide MayStart;
    CoreSyncFile(created, s, s');
    hide Core, Tally;
    StillCommitting(created, s, s', ws, base);
    WritingFile(s, base, ws[..k]);
  }

  /** The header keeps the checkpoint that it was read with. */
  lemma {:induction false} HeaderKept(base: Heap, ws: seq<Write>, ckpt: nat)
    requires 0 in base && Images(ws, ckpt)
    ensures 0 in Apply(base, ws[..|ws|-1]) && Apply(base, ws[..|ws|-1])[0] == base[0]
    ensures Apply(base, ws) == Apply(base, ws[..|ws|-1])[0 := ws[|ws|-1].img]
  {
    ApplyPage(base, base, ws[..|ws|-1], 0);
  }

  lemma {:induction false} WriteSame(s: State, w: Write, s': State)
    requires s' == WritePage(s, w).(phase := s'.phase) && s.pend == [] && !Resting(s) && !Resting(s')
    requires w.id == 0 && 0 in s.disk && w.img.ckpt == s.disk[0].ckpt
    ensures Root(s') == Root(s) && forall c :: MayStart(s', c) <==> MayStart(s, c)
  {
    assert s'.pend == [w] && s'.pend[..0] == [];
    FileEmpty(s);
  }

  lemma {:induction false} KeepsPublishHeader(created: Heap, s: State, s': State)
    requires Inv(created, s) && PublishHeader(s, s')
    ensures Inv(created, s')
  {
    var ws, base := s.phase.ws, s.phase.base;
    var k := |ws| - 1;
    BlockHarmless(created, s, ws, base, k);
    HeaderKept(base, ws, base[0].ckpt);
    WriteSame(s, ws[k], s');
    assert MayStart(s, ws[k].img.ckpt);
    hide Harmless, Committing, MayStart, Root, GoodStart, Tally, Contiguous, Apply;
    CoreWrite(created, s, ws[k], s');
    hide Core;
    StillCommitting(created, s, s', ws, base);
    assert [] + [ws[k]] == [ws[k]];
  }

  lemma {:induction false} OneWrite(h: Heap, w: Write)
    ensures Apply(h, [w]) == h[w.id := w.img]
  {
    assert [w][..0] == [];
  }

  lemma {:induction false} WholeCommit(created: Heap, s: State)
    requires PhaseOk(created, s) && s.phase.HeaderWritten?
    ensures var ws, base := s.phase.ws, s.phase.base;
      && ws != [] && 0 in base && File(s) == Apply(base, ws) && 0 in File(s) && File(s)[0].ckpt == base[0].ckpt
      && SameBytes(File(s), Db(created, s)) && 0 in s.disk
  {
    hide Block, Committed, Database, SameBytes, MayStart, Leads;
    var ws, base := s.phase.ws, s.phase.base;
    var cut := |s.log| - |Block(s.nextTxn, ws)|;
    HeaderKept(base, ws, base[0].ckpt);
    OneWrite(s.disk, ws[|ws|-1]);
    BlockDatabase(created, s.log, cut, s.nextTxn, ws);
    hide Apply;
    ApplySame(base, Database(created, s.log[..cut]), ws);
  }

  lemma {:induction false} CommitTally(created: Heap, s: State)
    requires PhaseOk(created, s) && s.phase.HeaderWritten?
    ensures s.log[..s.durable] == s.log && |Committed(s.log)| == s.acked + 1 && 0 in s.phase.base
      && Newest(s, s.phase.base[0].ckpt)
  {
    assert s.log[..|s.log|] == s.log;
  }

  lemma {:induction false} KeepsSyncHeader(created: Heap, s: State, s': State)
    requires Inv(created, s) && SyncHeader(s, s')
    ensures Inv(created, s')
  {
    hide PhaseOk, GoodStart, Contiguous, Committed, File, SameBytes, Newest;
    WholeCommit(created, s);
    CommitTally(created, s);
    FileEmpty(s');
    CoreSyncFile(created, s, s');
    HeaderNewest(created, s, s', s.phase.base);
    SettledIdle(created, s, s');
  }

  lemma {:induction false} SettledIdle(created: Heap, s: State, s': State)
    requires s'.phase.Idle? && s'.pend == [] && s'.log == s.log && SameBytes(s'.disk, Db(created, s))
    requires Newest(s', Root(s')) && s'.acked == |Committed(s'.log)|
    ensures PhaseOk(created, s')
  {}

  lemma {:induction false} HeaderNewest(created: Heap, s: State, s': State, base: Heap)
    requires 0 in s.disk && 0 in base && Newest(s, base[0].ckpt) && s'.log == s.log && s'.pend == []
    requires s'.disk == File(s) && File(s') == s'.disk && !s'.phase.Recovering?
    requires 0 in File(s) && File(s)[0].ckpt == base[0].ckpt
    ensures Newest(s', Root(s'))
  {
    FileStart(s);
    forall c: nat, x: nat | MayStart(s', c) && Leads(s'.log, c, x) ensures x <= Root(s') { OnlyStart(s', c); }
  }

  // ---- markers and checkpoints -------------------------------------------------------

  lemma {:induction false} NoGain(created: Heap, s: State, r: Rec)
    requires Core(created, s) && (r.TxnAbort? || r.Checkpoint?) && !Resting(s)
    ensures Fits(s, r) && Adds(created, s, r) && Committed(s.log + [r]) == Committed(s.log)
    ensures forall c: nat :: MayStart(s, c) ==> Installs(s.log + [r], c) == Installs(s.log, c)
  {
    assert Gain(s.log, r) == [] && Flatten([]) == [];
    CommitGrows(s.log, r);
    hide GoodStart, MayStart, Leads, Joins, Committed, Gain, Installs, Contiguous, Numbered, WritesUpTo;
    forall c: nat | MayStart(s, c) ensures Installs(s.log + [r], c) == Installs(s.log, c) {
      StartWrites(created, s, c);
      SturdyAppend(s, c, r, Append(s, r));
      InstallsGrow(s.log, c, r);
    }
  }

  /** Records outside transactions change nothing. */
  lemma {:induction false} KeepsMarker(created: Heap, s: State, r: Rec, s': State)
    requires Inv(created, s) && s.phase.Idle? && (r.TxnAbort? || r.Checkpoint?)
    requires s' == Append(s, r).(phase := s'.phase)
    requires s'.phase.Aborting? || (s'.phase.CheckpointLogged? && s.pend == [])
    ensures Inv(created, s')
  {
    hide GoodStart, Tally, Contiguous, Installs, Committed, Fits, Adds, SameBytes, MayStart, Leads;
    NoGain(created, s, r);
    CoreAppend(created, s, r, s');
    hide Core;
    SettledMarker(created, s, s');
  }

  lemma {:induction false} SettledMarker(created: Heap, s: State, s': State)
    requires Settled(created, s) && !Resting(s) && !Resting(s') && s' == s.(phase := s'.phase, log := s'.log)
    requires Committed(s'.log) == Committed(s.log)
    requires forall c: nat :: MayStart(s, c) ==> Installs(s'.log, c) == Installs(s.log, c)
    ensures Settled(created, s')
  {
    hide SameBytes, Installs, Committed;
    assert Db(created, s') == Db(created, s);
    assert Root(s') == Root(s);
    hide Root, Database;
    assert s.pend != [] && s.pend[0].id == 0 ==> MayStart(s, s.pend[0].img.ckpt);
    assert Waiting(s');
    forall c: nat, x: nat | MayStart(s', c) && Leads(s'.log, c, x) ensures x <= Root(s') {
      assert MayStart(s, c) && Leads(s.log, c, x);
    }
  }

  lemma {:induction false} KeepsLogSync(created: Heap, s: State, s': State)
    requires Inv(created, s) && (AbortSynced(s, s') || SyncCheckpoint(s, s'))
    ensures Inv(created, s')
  {
    assert Core(created, s') by {
      forall c: nat | MayStart(s, c) ensures s'.low <= c { StartWrites(created, s, c); }
      hide PhaseOk, GoodStart, MayStart, Committed, Contiguous, Root;
      CoreRelabel(created, s, s');
    }
    hide Core, Settled;
    SettledAgain(created, s, s');
  }

  /** Once synced, the file needs nothing more. */
  lemma {:induction false} SettledSync(created: Heap, s: State, s': State)
    requires Settled(created, s) && 0 in s.disk && s' == SyncFile(s).(phase := s'.phase) && !Resting(s) && !Resting(s')
    ensures Settled(created, s') && s'.pend == []
  {
    FileSettled(created, s);
    FileStart(s);
    FileEmpty(s');
    hide SameBytes, Database, Leads, Committed, File;
    forall c: nat, x: nat | MayStart(s', c) && Leads(s'.log, c, x) ensures x <= Root(s') { OnlyStart(s', c); }
  }

  lemma {:induction false} KeepsFlush(created: Heap, s: State, s': State)
    requires Inv(created, s) && (Flush(s, s') || SyncCheckpointHeader(s, s'))
    ensures Inv(created, s')
  {
    hide GoodStart, Contiguous, MayStart, Committed, Settled;
    assert Tally(s');
    CoreSyncFile(created, s, s');
    SettledSync(created, s, s');
  }

  lemma {:induction false} KeepsWriteCheckpoint(created: Heap, s: State, s': State)
    requires Inv(created, s) && WriteCheckpoint(s, s')
    ensures Inv(created, s')
  {
    hide GoodStart, Contiguous, Committed, Harmless, Tally, Settled;
    FileEmpty(s);
    var w := Write(0, s.disk[0].(ckpt := s.durable));
    assert s'.pend == [w];
    OneWrite(s.disk, w);
    assert Root(s') == |s.log|;
    EndInstalls(s.log);
    NewStart(created, s, s', w);
    CheckpointHarmless(created, s, w);
    hide Root, File;
    CoreWrite(created, s, w, s');
    assert forall c: nat :: MayStart(s', c) ==> MayStart(s, c) || c == |s.log|;
    hide MayStart;
    CheckpointSettled(created, s, s', w);
  }

  lemma {:induction false} EndInstalls(log: seq<Rec>)
    ensures forall n: nat :: n <= |log| ==> Installs(log[..n], |log|) == []
    ensures Installs(log, |log|) == []
    ensures Contiguous(log[|log|..]) && Numbered(log[|log|..]) && forall k :: WritesUpTo(log[|log|..], k)
  {
    assert log[|log|..] == [];
    assert log[..|log|] == log;
  }

  lemma {:induction false} CheckpointHarmless(created: Heap, s: State, w: Write)
    requires Settled(created, s) && s.durable == |s.log| && w.id == 0 && 0 in s.disk && w.img.body == s.disk[0].body
    ensures Harmless(created, s, w)
  {
    hide Database, Leads, MayStart, Later, Covered, Waiting, Newest;
    assert SamePage(s.disk, Db(created, s), 0);
    assert Right(Db(created, s), w);
    hide SameBytes, Settled, Right;
    forall c: nat, n: nat, x: nat | MayStart(s, c) && s.durable <= n <= |s.log| && Leads(s.log[..n], c, x)
      ensures Fine(created, s.log[..n], x, w)
    {
      assert s.log[..n] == s.log;
    }
  }

  lemma {:induction false} NewSafe(created: Heap, s: State, w: Write, ws: seq<Write>, c: nat)
    requires SameBytes(s.disk, Db(created, s)) && w.id in s.disk && w.img.body == s.disk[w.id].body
    requires forall x :: x in ws ==> x == w
    ensures Safe(created, s.disk, ws, s.log, c)
  {
    hide Database, Covered;
    assert SamePage(s.disk, Db(created, s), w.id);
    assert forall p :: SamePage(s.disk, Db(created, s), p);
  }

  /** Once every page is in place, recovery may start at the end of the log. */
  lemma {:induction false} NewStart(created: Heap, s: State, s': State, w: Write)
    requires Core(created, s) && Settled(created, s) && s.pend == [] && s.durable == |s.log| && !Resting(s)
    requires s' == WritePage(s, w).(phase := s'.phase) && Root(s') == |s.log| && !Resting(s')
    requires w.id in s.disk && w.img.body == s.disk[w.id].body
    ensures GoodStart(created, s', |s.log|)
  {
    hide Database, Committed, Flatten, Safe, SameBytes, Root, GoodStart, Installs, Contiguous, Numbered, WritesUpTo;
    hide Tally, Waiting, Newest;
    var end := |s.log|;
    EndInstalls(s.log);
    assert s.low <= end by { assert MayStart(s, s.disk[0].ckpt); StartWrites(created, s, s.disk[0].ckpt); }
    assert Sturdy(s', end);
    assert forall x :: Leads(s.log, end, x) ==> x == end;
    assert Rises(s.log, end);
    assert Later(s', s.log, end) == [w];
    NewSafe(created, s, w, [w], end);
    hide Leads, Rises, Sturdy, Later, MayStart, Core, Settled;
    OneStart(created, s', end);
  }

  lemma {:induction false} OneStart(created: Heap, s: State, end: nat)
    requires s.durable == |s.log| && Sturdy(s, end) && Rises(s.log, end) && end == |s.log|
    requires forall x :: Leads(s.log, end, x) ==> x == end
    requires Safe(created, s.disk, Later(s, s.log, end), s.log, end)
    ensures GoodStart(created, s, end)
  {
    hide Leads, Rises, Sturdy, Later, Safe;
    forall n, x | s.durable <= n <= |s.log| && Leads(s.log[..n], end, x)
      ensures Safe(created, s.disk, Later(s, s.log[..n], end), s.log[..n], x)
    {
      assert s.log[..n] == s.log;
    }
  }

  lemma {:induction false} CheckpointSettled(created: Heap, s: State, s': State, w: Write)
    requires Core(created, s) && Settled(created, s) && s' == s.(phase := s'.phase, pend := [w])
    requires w.id == 0 && w.img.ckpt == |s.log| && 0 in s.disk && w.img.body == s.disk[0].body && s.pend == []
    requires Installs(s.log, |s.log|) == [] && Root(s') == |s.log|
    requires forall c: nat :: MayStart(s', c) ==> MayStart(s, c) || c == |s.log|
    ensures Settled(created, s')
  {
    hide SameBytes, Database, Committed, Installs, Root, MayStart;
    forall c: nat, x: nat | MayStart(s', c) && Leads(s'.log, c, x) ensures x <= |s.log| {
      if MayStart(s, c) { LeadsSturdy(created, s, c, x); }
    }
  }

  lemma {:induction false} KeepsRelabel(created: Heap, s: State, s': State)
    requires Inv(created, s) && (Fail(s, s') || GiveUp(s, s') || exists low: nat :: Truncate(s, s', low))
    ensures Inv(created, s')
  {
    assert Core(created, s') by {
      forall c: nat | MayStart(s, c) ensures s'.low <= c { StartWrites(created, s, c); }
      hide GoodStart, MayStart, Contiguous, Committed, Root, Settled, Committing, Careful, Images, Block;
      CoreRelabel(created, s, s');
    }
    hide Core, Settled;
    if !Fail(s, s') { SettledAgain(created, s, s'); }
  }

  // ---- crash and recovery ------------------------------------------------------------

  lemma {:induction false} CutTally(s: State, n: nat, d: nat)
    requires s.durable <= d <= n <= |s.log| && Tally(s)
    ensures s.acked <= |Committed(s.log[..n][..d])| && |Committed(s.log[..n])| <= s.acked + 1
  {
    CommittedPrefix(s.log, n);
    assert s.log[..n][..d] == s.log[..d] && s.log[..d][..s.durable] == s.log[..s.durable];
    CommittedPrefix(s.log[..d], s.durable);
  }

  lemma {:induction false} KeepsCrash(created: Heap, s: State, s': State, n: nat, after: Heap)
    requires Inv(created, s) && Crash(s, s', n, after)
    ensures Inv(created, s')
  {
    CutTally(s, n, n);
    FileEmpty(s');
    assert 0 in s'.disk;
    assert s'.log[..n] == s'.log;
    forall c: nat | MayStart(s', c) ensures s'.low <= c {
      MovesStart(s, s', c);
      StartWrites(created, s, c);
    }
    hide PhaseOk, GoodStart, MayStart, Contiguous, Committed, Survives;
    CoreMoves(created, s, s');
  }

  /** The checkpoint that reads see is one that the recovery under way leads to. */
  lemma {:induction false} RecoveringRoot(created: Heap, s: State)
    requires Inv(created, s) && s.phase.Recovering?
    ensures var b := s.phase.base[0].ckpt;
      && MayStart(s, b) && GoodStart(created, s, b) && 0 in File(s) && Leads(s.log, b, File(s)[0].ckpt)
      && Sturdy(s, File(s)[0].ckpt) && b <= File(s)[0].ckpt
  {
    var base, k, ws := s.phase.base, s.phase.k, Installs(s.log, s.phase.base[0].ckpt);
    var pre := s.pend[..|s.pend| - k];
    FileSurvives(s.disk, pre);
    assert MayStart(s, base[0].ckpt);
    WritingFile(s, base, ws[..k]);
    ApplyPage(base, base, ws[..k], 0);
    assert GoodStart(created, s, base[0].ckpt);
    hide Core, Installs, MayStart, Survives, Apply;
    if !Touches(ws[..k], 0) {
      assert Leads(s.log, base[0].ckpt, base[0].ckpt);
    } else {
      var i :| 0 <= i < k && ws[..k][i] == Write(0, File(s)[0]);
      assert ws[i] in ws;
    }
    hide GoodStart;
    assert GoodStart(created, s, base[0].ckpt);
    GoodSturdy(created, s, base[0].ckpt, File(s)[0].ckpt);
  }

  lemma {:induction false} KillRoot(created: Heap, s: State, n: nat)
    requires Inv(created, s) && s.durable <= n <= |s.log|
    ensures RootKept(s, Killed(s, n))
  {
    hide Core, GoodStart, PhaseOk, Installs, Numbered, WritesUpTo, MayStart;
    if s.phase.Recovering? {
      InstallsBase(created, s);
      RecoveringRoot(created, s);
      var b, f := s.phase.base[0].ckpt, File(s)[0].ckpt;
      forall m: nat, w | s.durable <= m <= n && w in Installs(s.log[..m], f) ensures w in Installs(s.log[..m], b) {
        assert s.log[..m][f..] == s.log[f..][..m - f];
        ContiguousPrefix(s.log[f..], m - f);
        Within(s.log[..m], b, f);
      }
    } else {
      assert Root(Killed(s, n)) == Root(s);
    }
  }

  lemma {:induction false} KeepsKill(created: Heap, s: State, s': State, n: nat)
    requires Inv(created, s) && Kill(s, s', n)
    ensures Inv(created, s')
  {
    KillRoot(created, s, n);
    CutTally(s, n, s.durable);
    assert s'.log[..n] == s'.log && s'.log[..s.durable] == s.log[..s.durable];
    forall c: nat | MayStart(s', c) ensures s'.low <= c {
      assert MayStart(s, c);
      StartWrites(created, s, c);
    }
    hide PhaseOk, GoodStart, MayStart, Contiguous, Committed, RootKept;
    assert Survives(s.disk, s.pend, s'.disk);
    CoreMoves(created, s, s');
  }

  lemma {:induction false} KeepsStartRecovery(created: Heap, s: State, s': State)
    requires Inv(created, s) && StartRecovery(s, s')
    ensures Inv(created, s')
  {
    hide GoodStart, Contiguous, Committed, Replay, Installs;
    var b := File(s)[0].ckpt;
    MaxTxnBounds(s.log[b..]);
    FileStart(s);
    StartWrites(created, s, b);
    assert Root(s') == Root(s) && s'.log[..|s'.log|] == s.log;
    forall c: nat | MayStart(s', c) ensures s'.low <= c {
      assert MayStart(s, c);
      StartWrites(created, s, c);
    }
    hide MayStart, WritesUpTo, Root;
    assert Survives(s.disk, s.pend, s'.disk);
    CoreMoves(created, s, s');
    assert s'.pend[..|s'.pend|] == s'.pend && s'.pend[|s'.pend|..] == [];
  }

  /** Recovery installs what it set out to install, wherever the log is cut next. */
  lemma {:induction false} InstallsStay(created: Heap, s: State, n: nat)
    requires Inv(created, s) && s.phase.Recovering? && s.durable <= n <= |s.log|
    ensures Installs(s.log[..n], s.phase.base[0].ckpt) == Installs(s.log, s.phase.base[0].ckpt)
    ensures Replay(s.log[s.phase.base[0].ckpt..]).installs == Installs(s.log, s.phase.base[0].ckpt)
  {
    RecoveringRoot(created, s);
    StartWrites(created, s, s.phase.base[0].ckpt);
    assert s.log[..|s.log|] == s.log;
    SyncedBetween(s.log, s.durable, n);
    hide Core, Committed, Contiguous, Numbered, Replay;
    InstallsSame(s.log, n, s.phase.base[0].ckpt);
    ReplayIsCommitted(s.log[s.phase.base[0].ckpt..]);
  }

  lemma {:induction false} KeepsInstallImage(created: Heap, s: State, s': State)
    requires Inv(created, s) && InstallImage(s, s')
    ensures Inv(created, s')
  {
    var k, base, b := s.phase.k, s.phase.base, s.phase.base[0].ckpt;
    InstallsStay(created, s, |s.log|);
    var ws := Installs(s.log, b);
    var w := ws[k];
    RecoveringRoot(created, s);
    assert Root(s') == Root(s) == b;
    InstallHarmless(created, s, w);
    if w.id == 0 { InstalledStart(created, s, s', w); }
    hide Core, Harmless, Root, Installs, Replay, MayStart, GoodStart, Committed, WritesUpTo, Writing;
    CoreWrite(created, s, w, s');
    WritingMore(s, s', base, ws, k);
  }

  lemma {:induction false} InstallHarmless(created: Heap, s: State, w: Write)
    requires Inv(created, s) && s.phase.Recovering? && w in Installs(s.log, s.phase.base[0].ckpt)
    ensures Harmless(created, s, w)
  {
    hide Core, PhaseOk, MayStart, Leads, Installs, Fine;
    forall c: nat, n: nat, x: nat | MayStart(s, c) && s.durable <= n <= |s.log| && Leads(s.log[..n], c, x)
      ensures w in Later(s, s.log[..n], c)
    {
      InstallsStay(created, s, n);
      InstallsBase(created, s);
    }
  }

  lemma {:induction false} InstallsBase(created: Heap, s: State)
    requires Inv(created, s) && s.phase.Recovering?
    ensures 0 in s.phase.base && Root(s) == s.phase.base[0].ckpt <= s.durable <= |s.log|
  {}

  lemma {:induction false} InstalledFollows(created: Heap, s: State, s': State, w: Write, n: nat)
    requires Inv(created, s) && s.phase.Recovering? && w in Installs(s.log, s.phase.base[0].ckpt) && w.id == 0
    requires s' == WritePage(s, w).(phase := s'.phase) && s'.phase.Recovering? && s'.phase.base == s.phase.base
    requires s.durable <= n <= |s.log| && Root(s') == s.phase.base[0].ckpt
    ensures Follows(created, s, s.phase.base[0].ckpt, s', w.img.ckpt, n)
  {
    hide PhaseOk, Core, Installs, GoodStart, Fine, MayStart, Root, Contiguous, Numbered, WritesUpTo;
    InstallsBase(created, s);
    var b, x := s.phase.base[0].ckpt, w.img.ckpt;
    RecoveringRoot(created, s);
    InstallsStay(created, s, n);
    assert Leads(s.log, b, x) && Leads(s.log[..n], b, x);
    GoodSturdy(created, s, b, x);
    assert s.log[..n][x..] == s.log[x..][..n - x];
    ContiguousPrefix(s.log[x..], n - x);
    Within(s.log[..n], b, x);
  }

  /** A header that recovery installs is where the next recovery may start. */
  lemma {:induction false} InstalledStart(created: Heap, s: State, s': State, w: Write)
    requires Inv(created, s) && s.phase.Recovering? && w in Installs(s.log, s.phase.base[0].ckpt) && w.id == 0
    requires s' == WritePage(s, w).(phase := s'.phase) && s'.phase.Recovering? && s'.phase.base == s.phase.base
    ensures GoodStart(created, s', w.img.ckpt)
  {
    hide PhaseOk, Core, Installs, GoodStart, MayStart, Follows, Sturdy;
    InstallsBase(created, s);
    var b, x := s.phase.base[0].ckpt, w.img.ckpt;
    RecoveringRoot(created, s);
    assert Root(s') == b && Leads(s.log, b, x);
    assert s'.log[..|s'.log|] == s.log;
    assert Survives(s.disk, s.pend, s'.disk);
    hide Leads, Root, Survives;
    GoodSturdy(created, s, b, x);
    SturdyBounds(s, x);
    forall n: nat | s'.durable <= n <= |s'.log| ensures Follows(created, s, b, s', x, n) {
      InstalledFollows(created, s, s', w, n);
    }
    StartFrom(created, s, b, s', x);
  }

  lemma {:induction false} SturdyBounds(s: State, x: nat)
    requires Sturdy(s, x)
    ensures s.low <= x <= s.durable
  {}

  /** The last header written has the largest checkpoint. */
  lemma {:induction false} LastHeader(h: Heap, ws: seq<Write>)
    requires Sorted(ws) && 0 in h
    ensures 0 in Apply(h, ws) && forall w :: w in ws && w.id == 0 ==> w.img.ckpt <= Apply(h, ws)[0].ckpt
  {
    if ws != [] {
      var n := |ws| - 1;
      LastHeader(h, ws[..n]);
      assert ws == ws[..n] + [ws[n]];
    }
  }

  lemma {:induction false} RecoveredNewest(created: Heap, s: State, x: nat)
    requires Inv(created, s) && s.phase.Recovering? && s.phase.k == |Installs(s.log, s.phase.base[0].ckpt)|
    requires 0 in File(s) && Leads(s.log, File(s)[0].ckpt, x)
    ensures x <= File(s)[0].ckpt
  {
    var base, b, f := s.phase.base, s.phase.base[0].ckpt, File(s)[0].ckpt;
    var ws := Installs(s.log, b);
    RecoveringRoot(created, s);
    assert ws[..|ws|] == ws;
    WritingFile(s, base, ws);
    assert Sorted(ws) by { assert Rises(s.log, b); }
    LastHeader(base, ws);
    hide Core, PhaseOk, GoodStart, Apply, File;
    Within(s.log, b, f);
  }

  /** Replay over safe pages gives the database of the log. */
  lemma {:induction false} Rebuilds(created: Heap, base: Heap, log: seq<Rec>, b: nat)
    requires b <= |log| && Contiguous(log[b..]) && Safe(created, base, [], log, b)
    ensures SameBytes(Apply(base, Installs(log, b)), Database(created, log))
  {
    hide Contiguous, Database, Installs;
    var ws := Installs(log, b);
    DatabaseFrom(created, log, b);
    forall p ensures SamePage(Apply(base, ws), Database(created, log), p) {
      assert SafePage(created, base, [], log, b, p);
      ApplyPage(base, Database(created, log[..b]), ws, p);
      ApplyPage(Database(created, log[..b]), base, ws, p);
    }
  }

  lemma {:induction false} RecoveredBytes(created: Heap, s: State)
    requires Inv(created, s) && s.phase.Recovering? && 0 in s.phase.base
    requires s.phase.k == |Installs(s.log, s.phase.base[0].ckpt)|
    ensures SameBytes(File(s), Db(created, s))
  {
    hide Core, GoodStart, Safe, Database, Installs, Contiguous, Committed, Numbered, WritesUpTo, MayStart;
    var base, b := s.phase.base, s.phase.base[0].ckpt;
    var ws, pre := Installs(s.log, b), s.pend[..|s.pend| - s.phase.k];
    InstallsBase(created, s);
    RecoveringRoot(created, s);
    assert ws[..|ws|] == ws;
    WritingFile(s, base, ws);
    assert Leads(s.log, b, b);
    SafeNow(created, s, b, b);
    FileSurvives(s.disk, pre);
    StartWrites(created, s, b);
    hide PhaseOk, File, Leads, Survives;
    SafeSettle(created, s.disk, Later(s, s.log, b), pre, base, [], s.log, b);
    Rebuilds(created, base, s.log, b);
  }

  lemma {:induction false} DatabaseFrom(created: Heap, log: seq<Rec>, c: nat)
    requires c <= |log| && Contiguous(log[c..])
    ensures Database(created, log) == Apply(Database(created, log[..c]), Installs(log, c))
  {
    assert log == log[..c] + log[c..];
    CommittedAppend(log[..c], log[c..]);
    FlattenAppend(Committed(log[..c]), Committed(log[c..]));
    ApplyAppend(created, Flatten(Committed(log[..c])), Installs(log, c));
  }

  lemma {:induction false} RecoveredWrites(created: Heap, s: State)
    requires Inv(created, s) && s.phase.Recovering?
    ensures 0 in File(s) && File(s)[0].ckpt <= s.durable <= |s.log| && s.low <= File(s)[0].ckpt
    ensures WritesUpTo(s.log[File(s)[0].ckpt..], s.nextTxn) && Committed(s.log) == Committed(s.log[..s.durable])
  {
    hide GoodStart, Installs, File, Committed, Contiguous, Numbered, Writing;
    RecoveringRoot(created, s);
    assert s.log[..|s.log|] == s.log;
    WritesSuffix(s.log, s.phase.base[0].ckpt, File(s)[0].ckpt, s.nextTxn);
  }

  lemma {:induction false} FinishCore(created: Heap, s: State, s': State)
    requires Inv(created, s) && s.phase.Recovering? && s' == SyncFile(s).(phase := Idle, acked := |Committed(s.log)|)
    ensures Core(created, s') && s'.disk == File(s) && File(s') == s'.disk
    ensures forall c :: MayStart(s', c) ==> 0 in s'.disk && c == s'.disk[0].ckpt
  {
    hide PhaseOk, GoodStart, File, Committed, Contiguous, Numbered, WritesUpTo, Survives, Installs;
    RecoveredWrites(created, s);
    assert s.log[..|s.log|] == s.log;
    FileEmpty(s');
    assert Survives(s.disk, s.pend, s'.disk) by { FileIs(s); }
    forall c: nat | MayStart(s', c) ensures c == s'.disk[0].ckpt { OnlyStart(s', c); }
    hide MayStart;
    CoreMoves(created, s, s');
  }

  lemma {:induction false} FileIs(s: State)
    ensures Survives(s.disk, s.pend, File(s))
  { FileSurvives(s.disk, s.pend); }

  lemma {:induction false} KeepsFinishRecovery(created: Heap, s: State, s': State)
    requires Inv(created, s) && FinishRecovery(s, s')
    ensures Inv(created, s')
  {
    hide Core, PhaseOk, Replay, File, Committed, Installs, SameBytes, MayStart, Leads;
    InstallsBase(created, s);
    InstallsStay(created, s, |s.log|);
    FinishCore(created, s, s');
    RecoveredBytes(created, s);
    assert 0 in s'.disk by { RecoveredWrites(created, s); }
    forall c: nat, x: nat | MayStart(s', c) && Leads(s'.log, c, x) ensures x <= Root(s') {
      RecoveredNewest(created, s, x);
    }
    SettledIdle(created, s, s');
  }

  // ---- all steps -----------------------------------------------------------------------

  lemma {:induction false} InvInit(created: Heap, s: State)
    requires Init(created, s)
    ensures Inv(created, s)
  {
    assert s.log[0..] == [] && s.log[..0] == [];
    assert Flatten(Committed([])) == [] && Apply(created, []) == created;
    assert Installs([], 0) == [] && Root(s) == 0;
    forall c: nat | MayStart(s, c) ensures c == 0 && GoodStart(created, s, c) {
      OnlyStart(s, c);
      assert Safe(created, s.disk, [], [], 0);
    }
  }

  lemma {:induction false} InvNext(created: Heap, s: State, s': State, step: Step)
    requires Inv(created, s) && Next(s, s', step)
    ensures Inv(created, s')
  {
    hide Core, PhaseOk;
    match step {
      case BeginCommitStep(ws) => KeepsBeginCommit(created, s, s', ws);
      case LogRecordStep => KeepsLogRecord(created, s, s');
      case LogSyncedStep => KeepsLogSynced(created, s, s');
      case PublishPageStep => KeepsPublishPage(created, s, s');
      case SyncDataStep => KeepsSyncData(created, s, s');
      case PublishHeaderStep => KeepsPublishHeader(created, s, s');
      case SyncHeaderStep => KeepsSyncHeader(created, s, s');
      case LogAbortStep(t) => KeepsMarker(created, s, TxnAbort(t), s');
      case AbortSyncedStep => KeepsLogSync(created, s, s');
      case FlushStep => KeepsFlush(created, s, s');
      case LogCheckpointStep => KeepsMarker(created, s, Checkpoint, s');
      case SyncCheckpointStep => KeepsLogSync(created, s, s');
      case WriteCheckpointStep => KeepsWriteCheckpoint(created, s, s');
      case SyncCheckpointHeaderStep => KeepsFlush(created, s, s');
      case TruncateStep(low) => KeepsRelabel(created, s, s');
      case GiveUpStep => KeepsRelabel(created, s, s');
      case FailStep => KeepsRelabel(created, s, s');
      case CrashStep(n, after) => KeepsCrash(created, s, s', n, after);
      case KillStep(n) => KeepsKill(created, s, s', n);
      case StartRecoveryStep => KeepsStartRecovery(created, s, s');
      case InstallImageStep => KeepsInstallImage(created, s, s');
      case FinishRecoveryStep => KeepsFinishRecovery(created, s, s');
    }
  }
}
