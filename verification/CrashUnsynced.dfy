/**
 * What the two restrictions on runs are for. A commit that is not careful is one
 * after which a commit can be lost: recovery from the old checkpoint installs
 * older images of pages and, in between, the newer header; if it is cut short,
 * the header and an older image may survive together, and replay from the newer
 * checkpoint leaves that page as it is. And a process that is killed between
 * writing a commit record and syncing it leaves a log that recovery takes for
 * synced: what it installs from there can be lost after readers have seen it.
 */
module CrashUnsynced {
  import opened Recovery
  import opened CrashMachine
  import opened CrashStarts
  import opened CrashSteps
  import opened CrashRuns

  ghost predicate Reaches(s: State, s': State, n: nat)
    decreases n
  {
    if n == 0 then s == s' else exists m, step :: Next(s, m, step) && Reaches(m, s', n - 1)
  }

  lemma {:induction false} ReachesInv(created: Heap, s: State, s': State, n: nat)
    requires Inv(created, s) && Reaches(s, s', n)
    ensures Inv(created, s')
    decreases n
  {
    hide Inv, Next;
    if n > 0 {
      var m, step :| Next(s, m, step) && Reaches(m, s', n - 1);
      InvNext(created, s, m, step);
      ReachesInv(created, m, s', n - 1);
    }
  }

  lemma {:induction false} OneStep(s: State, s': State, step: Step)
    requires Next(s, s', step)
    ensures Reaches(s, s', 1)
  {
    hide Next;
    assert Next(s, s', step) && Reaches(s', s', 0);
  }

  lemma {:induction false} Further(a: State, b: State, n: nat, c: State, m: nat)
    requires Reaches(a, b, n) && Reaches(b, c, m)
    ensures Reaches(a, c, n + m)
    decreases n
  {
    hide Next;
    if n > 0 {
      var x, step :| Next(a, x, step) && Reaches(x, b, n - 1);
      Further(x, b, n - 1, c, m);
      assert Next(a, x, step) && Reaches(x, c, n + m - 1);
    }
  }

  // ---- paths of the machine -----------------------------------------------------

  /** One more step at the end. */
  lemma {:induction false} Then(a: State, b: State, n: nat, c: State, step: Step)
    requires Reaches(a, b, n) && Next(b, c, step)
    ensures Reaches(a, c, n + 1)
  {
    hide Next, Reaches;
    OneStep(b, c, step);
    Further(a, b, n, c, 1);
  }

  function Logged(s: State): State
    requires s.phase.Logging?
  { s.(log := s.log + s.phase.todo, phase := Logging(s.phase.ws, [])) }

  lemma {:induction false} LogOne(s: State, m: State)
    requires LogRecord(s, m)
    ensures Reaches(s, m, 1)
  { OneStep(s, m, LogRecordStep); }

  lemma {:induction false} LogAll(s: State)
    requires s.phase.Logging?
    ensures Reaches(s, Logged(s), |s.phase.todo|)
    decreases |s.phase.todo|
  {
    hide Next, Block;
    var todo := s.phase.todo;
    if todo == [] {
      assert s.log + todo == s.log;
    } else {
      var m := Append(s, todo[0]).(phase := Logging(s.phase.ws, todo[1..]));
      LogAll(m);
      assert s.log + [todo[0]] + todo[1..] == s.log + todo;
      LogOne(s, m);
      hide Reaches;
      Further(s, m, 1, Logged(s), |todo| - 1);
    }
  }

  /** The state in which a commit of ws has begun. */
  function Begun(s: State, ws: seq<Write>): State {
    s.(phase := Logging(ws, Block(s.nextTxn + 1, ws)), nextTxn := s.nextTxn + 1)
  }

  /** The state in which the images of ws have been logged and synced. */
  function Durable(s: State, ws: seq<Write>): State {
    var log := s.log + Block(s.nextTxn + 1, ws);
    s.(log := log, durable := |log|, nextTxn := s.nextTxn + 1, phase := Publishing(ws, 0, File(s)))
  }

  lemma {:induction false} LogsCommit(s: State, ws: seq<Write>)
    ensures Reaches(Begun(s, ws), Durable(s, ws), |Block(s.nextTxn + 1, ws)| + 1)
  {
    hide Reaches, Block;
    var s1 := Begun(s, ws);
    LogAll(s1);
    Then(s1, Logged(s1), |Block(s.nextTxn + 1, ws)|, Durable(s, ws), LogSyncedStep);
  }

  lemma {:induction false} Stays(s: State)
    ensures Reaches(s, s, 0)
  {}

  lemma {:induction false} InstallOne(s: State, m: State)
    requires InstallImage(s, m)
    ensures Reaches(s, m, 1)
  { OneStep(s, m, InstallImageStep); }

  /** Recovery up to the point before its sync. */
  lemma {:induction false} InstallsAll(s: State)
    requires s.phase.Recovering? && 0 in s.phase.base && s.phase.base[0].ckpt <= |s.log|
    requires s.phase.k <= |Replay(s.log[s.phase.base[0].ckpt..]).installs|
    ensures var ws := Replay(s.log[s.phase.base[0].ckpt..]).installs;
      Reaches(s, s.(pend := s.pend + ws[s.phase.k..], phase := Recovering(|ws|, s.phase.base)), |ws| - s.phase.k)
    decreases |Replay(s.log[s.phase.base[0].ckpt..]).installs| - s.phase.k
  {
    hide Replay, Next, Reaches;
    var ws, k := Replay(s.log[s.phase.base[0].ckpt..]).installs, s.phase.k;
    var end := s.(pend := s.pend + ws[k..], phase := Recovering(|ws|, s.phase.base));
    if k == |ws| {
      assert s.pend + ws[k..] == s.pend;
      Stays(s);
    } else {
      var m := WritePage(s, ws[k]).(phase := Recovering(k + 1, s.phase.base));
      InstallsAll(m);
      assert s.pend + [ws[k]] + ws[k+1..] == s.pend + ws[k..];
      InstallOne(s, m);
      Further(s, m, 1, end, |ws| - k - 1);
    }
  }

  // ---- commits that are not careful -------------------------------------------------

  /** Some continuation ends in a crash after which replay gives a wrong database. */
  ghost predicate Loses(created: Heap, s: State) {
    exists t, k: nat, n: nat, after :: Reaches(s, t, k) && Ruins(created, t, n, after)
  }

  ghost predicate Ruins(created: Heap, t: State, n: nat, after: Heap) {
    t.durable <= n <= |t.log| && Survives(t.disk, t.pend, after) && !Rebuilt(created, t, n, after)
  }

  /** What the log commits after one more transaction, from any start. */
  lemma {:induction false} OneMore(created: Heap, s: State, c: nat, ws: seq<Write>)
    requires Core(created, s) && !Resting(s) && MayStart(s, c)
    ensures var log := Durable(s, ws).log;
      && c <= s.durable <= |s.log| <= |log| && s.low <= c && Installs(log, c) == Installs(s.log, c) + ws
      && Replay(log[c..]).installs == Installs(log, c)
  {
    hide Core, MayStart, Installs, Replay, Leads;
    var t, log := s.nextTxn + 1, Durable(s, ws).log;
    StartWrites(created, s, c);
    assert log[|s.log|..] == Block(t, ws) && log[..|s.log|] == s.log && log[c..] == s.log[c..] + Block(t, ws);
    hide Sturdy, Block;
    BlockInstalls(log, c, |s.log|, t, ws);
    LogBlock(s.log[c..], t, ws) by { assert Sturdy(s, c); }
    ReplayInstalls(log, c);
  }

  lemma {:induction false} LogBlock(log: seq<Rec>, t: TxnId, ws: seq<Write>)
    requires Contiguous(log) && Numbered(log) && t > 0 && WritesUpTo(log, t - 1)
    ensures Contiguous(log + Block(t, ws)) && Numbered(log + Block(t, ws))
  {}

  /** The state in the middle of a recovery from c, every image installed and none synced. */
  function Interrupted(s: State, ws: seq<Write>, c: nat, base: Heap): State {
    var log := Durable(s, ws).log;
    State(Recovering(|Installs(log, c)|, base), log, |log|, s.low, base, Installs(log, c),
          Replay(if c <= |log| then log[c..] else []).maxTxn, s.acked)
  }

  /** After the commit of ws, a crash leaves the older header and a recovery runs until just before its sync. */
  lemma {:induction false} RunToInterrupted(created: Heap, s: State, ws: seq<Write>, c: nat, base: Heap)
      returns (n: nat)
    requires Core(created, s) && !Resting(s) && MayStart(s, c) && Survives(s.disk, s.pend, base)
    requires 0 in base && base[0].ckpt == c
    ensures Reaches(Begun(s, ws), Interrupted(s, ws, c, base), n)
  {
    hide Reaches, Replay, Block, Core, Installs, MayStart, Survives;
    var d := Durable(s, ws);
    LogsCommit(s, ws);
    var m := |Block(s.nextTxn + 1, ws)| + 1;
    OneMore(created, s, c, ws);
    var down := State(Down, d.log, |d.log|, s.low, base, [], 0, s.acked);
    var up := State(Recovering(0, base), d.log, |d.log|, s.low, base, [], Replay(d.log[c..]).maxTxn, s.acked);
    assert d.log[..|d.log|] == d.log;
    assert Crash(d, down, |d.log|, base);
    Then(Begun(s, ws), d, m, down, CrashStep(|d.log|, base));
    FileEmpty(down);
    assert StartRecovery(down, up);
    Then(Begun(s, ws), down, m + 1, up, StartRecoveryStep);
    InstallsAll(up);
    var ins := Installs(d.log, c);
    assert [] + ins[0..] == ins;
    Further(Begun(s, ws), up, m + 2, Interrupted(s, ws, c, base), |ins|);
    n := m + 2 + |ins|;
  }

  /** A heap that a crash may leave with checkpoint c in the header. */
  lemma {:induction false} OlderHeader(s: State, c: nat) returns (base: Heap)
    requires 0 in s.disk && MayStart(s, c)
    ensures Survives(s.disk, s.pend, base) && 0 in base && base[0].ckpt == c
  {
    if s.disk[0].ckpt == c { base := s.disk; } else {
      var w :| w in s.pend && w.id == 0 && w.img.ckpt == c;
      base := s.disk[0 := w.img];
    }
  }

  /** The newer header and an older image survive that recovery together. */
  lemma {:induction false} MixSurvives(disk: Heap, pend: seq<Write>, w: Write, h: Write)
    requires w in pend && h in pend && w.id != h.id
    ensures Survives(disk, pend, disk[w.id := w.img][h.id := h.img])
  {
    var after := disk[w.id := w.img][h.id := h.img];
    assert Write(w.id, w.img) in pend && Write(h.id, h.img) in pend;
  }

  /** The page as it was and, behind it, the page that replay leaves. */
  ghost predicate Stale(created: Heap, t: State, after: Heap, w: Write) {
    && t.durable == |t.log| && Survives(t.disk, t.pend, after) && 0 in after && after[0].ckpt <= |t.log|
    && var heap := Apply(after, Replay(t.log[after[0].ckpt..]).installs);
    && w.id in heap && heap[w.id].body == w.img.body && !Right(Database(created, t.log), w)
  }

  lemma {:induction false} StaleRuins(created: Heap, t: State, after: Heap, w: Write)
    requires Stale(created, t, after, w)
    ensures Ruins(created, t, |t.log|, after)
  {
    assert t.log[..|t.log|] == t.log;
    hide Apply, Replay, Survives;
    var heap := Apply(after, Replay(t.log[after[0].ckpt..]).installs);
    assert !SamePage(heap, Database(created, t.log), w.id);
  }

  lemma {:induction false} IdleSettled(created: Heap, s: State)
    requires Inv(created, s) && s.phase.Idle?
    ensures 0 in s.disk && Settled(created, s)
  {}

  lemma {:induction false} CarelessLoses(created: Heap, s: State, ws: seq<Write>, c: nat, w: Write)
      returns (t: State, n: nat, after: Heap)
    requires Inv(created, s) && s.phase.Idle? && 0 in File(s) && Images(ws, File(s)[0].ckpt)
    requires MayStart(s, c) && c != File(s)[0].ckpt && w in Installs(s.log, c) && !Touches(ws, w.id)
    requires !Right(File(s), w)
    ensures Reaches(Begun(s, ws), t, n) && Stale(created, t, after, w) && t.log == Durable(s, ws).log
  {
    hide Reaches, Core, Block, Installs, Replay, MayStart, File, Survives;
    var y, h := File(s)[0].ckpt, ws[|ws|-1];
    assert Touches(ws, h.id);
    IdleSettled(created, s);
    var base := OlderHeader(s, c);
    n := RunToInterrupted(created, s, ws, c, base);
    t := Interrupted(s, ws, c, base);
    OneMore(created, s, c, ws);
    after := base[w.id := w.img][0 := h.img];
    MixSurvives(base, t.pend, w, h);
    LateInstalls(created, s, ws, c);
    ApplyPage(after, after, ws, w.id);
    StaysWrong(created, s, ws, w);
  }

  /** Replay from the newer checkpoint installs the last transaction only. */
  lemma {:induction false} LateInstalls(created: Heap, s: State, ws: seq<Write>, c: nat)
    requires Inv(created, s) && s.phase.Idle? && 0 in File(s) && MayStart(s, c) && c != File(s)[0].ckpt
    ensures var y := File(s)[0].ckpt; var log := Durable(s, ws).log;
      y <= |log| && Replay(log[y..]).installs == ws
  {
    hide Core, Block, Installs, Replay;
    IdleSettled(created, s);
    FileStart(s);
    FileWaiting(s);
    assert s.pend != [] by { if s.pend == [] { FileEmpty(s); OnlyStart(s, c); } }
    hide MayStart, File;
    OneMore(created, s, File(s)[0].ckpt, ws);
    assert [] + ws == ws;
  }

  /** What was wrong before the commit is wrong after it, outside its pages. */
  lemma {:induction false} StaysWrong(created: Heap, s: State, ws: seq<Write>, w: Write)
    requires Settled(created, s) && !Touches(ws, w.id)
    ensures Right(Database(created, Durable(s, ws).log), w) <==> Right(File(s), w)
  {
    var log, t := Durable(s, ws).log, s.nextTxn + 1;
    assert log[|s.log|..] == Block(t, ws) && log[..|s.log|] == s.log;
    hide Block, Committed;
    BlockDatabase(created, log, |s.log|, t, ws);
    FileSettled(created, s);
    hide Settled, Database, File, SameBytes;
    assert SamePage(File(s), Db(created, s), w.id) by { SameAt(File(s), Db(created, s), w.id); }
    ApplyPage(Db(created, s), map[], ws, w.id);
  }

  lemma {:induction false} SameAt(h: Heap, g: Heap, p: PageId)
    requires SameBytes(h, g)
    ensures SamePage(h, g, p)
  {}

  /** A commit that begins can be followed by anything if and only if it is careful:
      otherwise some continuation loses a commit. Once the header is synced,
      every commit is careful. */
  lemma {:induction false} CommitSafeIff(created: Heap, s: State, s': State, ws: seq<Write>)
    requires Inv(created, s) && BeginCommit(s, s', ws)
    ensures Careful(s, ws) <==> !Loses(created, s')
    ensures s.pend == [] ==> Careful(s, ws)
  {
    assert s' == Begun(s, ws);
    if Careful(s, ws) {
      CarefulKeeps(created, s, s', ws);
    } else {
      var c, w :| MayStart(s, c) && c != File(s)[0].ckpt && w in Installs(s.log, c) && !Touches(ws, w.id)
        && !Right(File(s), w);
      hide Inv, MayStart, Installs, Images, Stale, Ruins, Reaches;
      var t, n, after := CarelessLoses(created, s, ws, c, w);
      StaleRuins(created, t, after, w);
      assert Reaches(s', t, n) && Ruins(created, t, |t.log|, after);
    }
    if s.pend == [] { SyncedCareful(s, ws); }
  }

  lemma {:induction false} SyncedCareful(s: State, ws: seq<Write>)
    requires s.pend == [] && 0 in File(s)
    ensures Careful(s, ws)
  {
    FileEmpty(s);
    hide Installs, File;
    forall c | MayStart(s, c) ensures c == File(s)[0].ckpt { OnlyStart(s, c); }
  }

  lemma {:induction false} CarefulKeeps(created: Heap, s: State, s': State, ws: seq<Write>)
    requires Inv(created, s) && BeginCommit(s, s', ws) && Careful(s, ws)
    ensures !Loses(created, s')
  {
    hide Careful, Rebuilt, Reaches;
    KeepsBeginCommit(created, s, s', ws);
    hide Inv;
    forall t, k: nat, n: nat, after | Reaches(s', t, k) ensures !Ruins(created, t, n, after) {
      ReachesInv(created, s', t, k);
      if t.durable <= n <= |t.log| && Survives(t.disk, t.pend, after) { ReplayRebuilds(created, t, n, after); }
    }
  }

  // ---- killed before the log was synced ----------------------------------------------

  /** Some continuation ends in a crash that may lose what the reopened engine showed as committed. */
  ghost predicate Forgets(s: State) {
    exists t, k: nat, m: nat :: Reaches(s, t, k) && Short(t, m)
  }

  ghost predicate Short(t: State, m: nat) { t.durable <= m <= |t.log| && |Committed(t.log[..m])| < t.acked }

  /** A process may be killed if and only if what the log commits has been synced:
      otherwise recovery shows a commit that the next crash may take back. */
  lemma {:induction false} KillSafeIff(created: Heap, s: State, n: nat)
    requires Inv(created, s) && s.durable <= n <= |s.log|
    ensures Synced(s, n) <==> !Forgets(Killed(s, n))
  {
    hide Inv, Short, Reaches;
    if Synced(s, n) {
      KeepsKill(created, s, Killed(s, n), n);
      forall t, k: nat, m: nat | Reaches(Killed(s, n), t, k) ensures !Short(t, m) {
        ReachesInv(created, Killed(s, n), t, k);
        NeverShort(created, t, m);
      }
    } else {
      var t, k := ReopensAll(created, s, n);
      assert Reaches(Killed(s, n), t, k) && Short(t, s.durable);
    }
  }

  lemma {:induction false} NeverShort(created: Heap, t: State, m: nat)
    requires Inv(created, t)
    ensures !Short(t, m)
  {
    if t.durable <= m <= |t.log| { CrashKeepsAcked(created, t, m); }
  }

  lemma {:induction false} ReopensAll(created: Heap, s: State, n: nat) returns (t: State, k: nat)
    requires Inv(created, s) && s.durable <= n <= |s.log| && !Synced(s, n)
    ensures Reaches(Killed(s, n), t, k) && Short(t, s.durable)
  {
    hide Reaches, Replay, Committed, PhaseOk, GoodStart;
    var down := Killed(s, n);
    FileStart(s);
    StartWrites(created, s, File(s)[0].ckpt);
    hide Core, File;
    var c := File(s)[0].ckpt;
    var up := down.(phase := Recovering(0, File(down)), nextTxn := Replay(down.log[c..]).maxTxn);
    OneStep(down, up, StartRecoveryStep);
    var ins := Replay(down.log[c..]).installs;
    InstallsAll(up);
    var end := up.(pend := up.pend + ins[0..], phase := Recovering(|ins|, up.phase.base));
    Further(down, up, 1, end, |ins|);
    t := SyncFile(end).(phase := Idle, acked := |Committed(end.log)|);
    Then(down, end, 1 + |ins|, t, FinishRecoveryStep);
    k := 2 + |ins|;
    assert t.log[..s.durable] == s.log[..s.durable];
    Longer(s.log, s.durable, n);
  }

  lemma {:induction false} Longer(log: seq<Rec>, d: nat, n: nat)
    requires d <= n <= |log| && Committed(log[..n]) != Committed(log[..d])
    ensures |Committed(log[..d])| < |Committed(log[..n])|
  {
    assert log[..n][..d] == log[..d];
    CommittedPrefix(log[..n], d);
  }

  // ---- a run that loses a commit ----------------------------------------------------

  /** The state after a transaction that changes one page. */
  function After(s: State, w: Write, h: Write): State {
    var d := Durable(s, [w, h]);
    d.(disk := s.disk[w.id := w.img][0 := h.img], phase := Idle, acked := s.acked + 1)
  }

  lemma {:induction false} Commits(s: State, w: Write, h: Write) returns (n: nat)
    requires s.phase.Idle? && s.pend == [] && 0 in s.disk && w.id != 0 && h.id == 0 && h.img.ckpt == s.disk[0].ckpt
    ensures Reaches(s, After(s, w, h), n)
  {
    hide Reaches, Block, Careful;
    var ws := [w, h];
    var d := Durable(s, ws);
    FileEmpty(s);
    SyncedCareful(s, ws);
    OneStep(s, Begun(s, ws), BeginCommitStep(ws));
    LogsCommit(s, ws);
    var m := |Block(s.nextTxn + 1, ws)| + 1;
    Further(s, Begun(s, ws), 1, d, m);
    Publishes(d, s.disk, w, h);
    n := m + 5;
    Further(s, d, m + 1, After(s, w, h), 4);
  }

  lemma {:induction false} Publishes(d: State, base: Heap, w: Write, h: Write)
    requires d.phase == Publishing([w, h], 0, base) && d.pend == []
    ensures Reaches(d, d.(disk := d.disk[w.id := w.img][h.id := h.img], phase := Idle, acked := d.acked + 1), 4)
  {
    hide Reaches;
    var ws := [w, h];
    var p := WritePage(d, w).(phase := Publishing(ws, 1, base));
    assert p.pend == [w];
    OneWrite(d.disk, w);
    var q := SyncFile(p).(phase := DataSynced(ws, base));
    var r := WritePage(q, h).(phase := HeaderWritten(ws, base));
    assert r.pend == [h];
    OneWrite(q.disk, h);
    hide Apply;
    OneStep(d, p, PublishPageStep);
    Then(d, p, 1, q, SyncDataStep);
    Then(d, q, 2, r, PublishHeaderStep);
    var e := SyncFile(r).(phase := Idle, acked := r.acked + 1);
    Then(d, r, 3, e, SyncHeaderStep);
    assert e == d.(disk := d.disk[w.id := w.img][h.id := h.img], phase := Idle, acked := d.acked + 1);
  }

  /** The state after a checkpoint whose header could not be synced. */
  function Unsynced(s: State): State
    requires 0 in s.disk
  {
    var log := s.log + [Checkpoint];
    s.(log := log, durable := |log|, pend := [Write(0, s.disk[0].(ckpt := |log|))])
  }

  lemma {:induction false} Checkpoints(s: State)
    requires s.phase.Idle? && s.pend == [] && 0 in s.disk
    ensures Reaches(s, Unsynced(s), 4)
  {
    hide Reaches;
    var a := Append(s, Checkpoint).(phase := CheckpointLogged);
    var b := SyncLog(a).(phase := CheckpointSynced);
    var c := Unsynced(s).(phase := CheckpointHeader);
    OneStep(s, a, LogCheckpointStep);
    FileEmpty(b);
    assert b.pend + c.pend == c.pend;
    Then(s, a, 1, b, SyncCheckpointStep);
    Then(s, b, 2, c, WriteCheckpointStep);
    Then(s, c, 3, Unsynced(s), GiveUpStep);
  }

  const HEADER := Write(0, Image([], 0))
  const FIRST := Write(1, Image([1], 0))
  const SECOND := Write(1, Image([2], 0))
  const THIRD := Write(2, Image([7], 0))
  const LATE := Write(0, Image([], 9))
  const START: Heap := map[0 := Image([], 0), 1 := Image([0], 0)]
  const NEW := State(Idle, [], 0, 0, START, [], 0, 0)

  /** Page 1 was written twice, and then a checkpoint was taken whose header was not synced. */
  function TwoCommits(): State { After(After(NEW, FIRST, HEADER), SECOND, HEADER) }

  lemma {:induction false} BlockLength(t: TxnId, ws: seq<Write>)
    ensures |Block(t, ws)| == |ws| + 2
  {}

  lemma {:induction false} TwoCommitsLog()
    ensures var s := TwoCommits();
      && s.log == Block(1, [FIRST, HEADER]) + Block(2, [SECOND, HEADER]) && |s.log| == 8 == s.durable
      && s == State(Idle, s.log, 8, 0, map[0 := Image([], 0), 1 := Image([2], 0)], [], 2, 2)
  {
    BlockLength(1, [FIRST, HEADER]);
    BlockLength(2, [SECOND, HEADER]);
    hide Block;
    assert [] + Block(1, [FIRST, HEADER]) == Block(1, [FIRST, HEADER]);
  }

  lemma {:induction false} RunTwo() returns (n: nat)
    ensures Reaches(NEW, TwoCommits(), n)
  {
    hide Reaches, Block;
    var s1 := After(NEW, FIRST, HEADER);
    var a := Commits(NEW, FIRST, HEADER);
    var b := Commits(s1, SECOND, HEADER);
    Further(NEW, s1, a, TwoCommits(), b);
    n := a + b;
  }

  /** Replay from the old checkpoint would install the first image of page 1. */
  lemma {:induction false} FirstInstalled()
    ensures 0 in TwoCommits().disk && FIRST in Installs(Unsynced(TwoCommits()).log, 0)
  {
    TwoCommitsLog();
    var log, a, b := Unsynced(TwoCommits()).log, Block(1, [FIRST, HEADER]), Block(2, [SECOND, HEADER]);
    hide TwoCommits, Block;
    assert log == (a + b) + [Checkpoint] && log[0..] == log && a[..|a|] == a && (a + b)[0..] == a + b;
    BlockCommits(1, [FIRST, HEADER], |a|);
    BlockInstalls(a + b, 0, |a|, 2, [SECOND, HEADER]);
    assert (a + b)[..|a|] == a && a[0..] == a;
    NothingMore(a + b, Checkpoint);
    FlattenOne([FIRST, HEADER]);
    hide Committed, Flatten;
    assert FIRST in Installs(a, 0);
  }

  /** From a new file, a run of careful commits and a checkpoint whose header could
      not be synced leads to a commit after which an interrupted recovery may
      bring page 1 back to the bytes of the first commit. */
  lemma {:induction false} FailedSyncLosesCommit() returns (s: State, n: nat, t: State, k: nat, after: Heap)
    ensures Init(START, NEW) && Reaches(NEW, s, n) && BeginCommit(s, Begun(s, [THIRD, LATE]), [THIRD, LATE])
    ensures Reaches(Begun(s, [THIRD, LATE]), t, k) && Stale(START, t, after, FIRST)
    ensures Right(Database(START, t.log), SECOND)
  {
    hide Reaches, TwoCommits, Stale, Database, Inv;
    var a := RunTwo();
    TwoCommitsLog();
    var two := TwoCommits();
    s := Unsynced(two);
    Checkpoints(two);
    n := a + 4;
    Further(NEW, two, a, s, 4);
    InvInit(START, NEW);
    ReachesInv(START, NEW, s, n);
    OneWrite(s.disk, LATE);
    assert s.pend == [LATE];
    var ws := [THIRD, LATE];
    assert Images(ws, 9) && BeginCommit(s, Begun(s, ws), ws);
    FirstInstalled();
    assert MayStart(s, 0);
    hide Installs, MayStart, Images;
    assert !Touches(ws, 1) && !Right(File(s), FIRST);
    t, k, after := CarelessLoses(START, s, ws, 0, FIRST);
    IdleSettled(START, s);
    StaysWrong(START, s, ws, SECOND);
  }

  /** From a new file, the first commit has been written to the log and not synced when the process is killed. */
  lemma {:induction false} KilledTooEarly() returns (s: State, n: nat)
    ensures Reaches(NEW, s, n) && s.durable <= |s.log| && !Synced(s, |s.log|) && Forgets(Killed(s, |s.log|))
  {
    hide Reaches, Inv, Forgets;
    var ws := [FIRST, HEADER];
    FileEmpty(NEW);
    SyncedCareful(NEW, ws);
    OneStep(NEW, Begun(NEW, ws), BeginCommitStep(ws));
    LogAll(Begun(NEW, ws));
    s := Logged(Begun(NEW, ws));
    n := 1 + |Block(1, ws)|;
    Further(NEW, Begun(NEW, ws), 1, s, |Block(1, ws)|);
    assert s.log == Block(1, ws);
    BlockCommits(1, ws, |s.log|);
    assert s.log[..|s.log|] == s.log;
    InvInit(START, NEW);
    ReachesInv(START, NEW, s, n);
    KillSafeIff(START, s, |s.log|);
  }
}
