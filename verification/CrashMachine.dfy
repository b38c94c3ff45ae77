/**
 * Commit, checkpoint, crash and recovery of the disk engine as a step machine,
 * and the invariant that its steps keep.
 *
 * `disk` is what has been synced, `pend` the heap writes issued since, and
 * `durable` the length of the log that has been synced. A crash keeps any
 * prefix of the log from `durable` on and, for each page, any of its values; a
 * kill of the process keeps every page as it was written last.
 */
module CrashMachine {
  import opened Recovery

  datatype Phase =
    | Idle
    | Logging(ws: seq<Write>, todo: seq<Rec>)
    | Publishing(ws: seq<Write>, k: nat, base: Heap)
    | DataSynced(ws: seq<Write>, base: Heap)
    | HeaderWritten(ws: seq<Write>, base: Heap)
    | Aborting
    | CheckpointLogged
    | CheckpointSynced
    | CheckpointHeader
    | CheckpointDone
    | Broken
    | Down
    | Recovering(k: nat, base: Heap)

  datatype State = State(
    phase: Phase, log: seq<Rec>, durable: nat, low: nat,
    disk: Heap, pend: seq<Write>, nextTxn: nat, acked: nat)

  /** What reads see: the synced pages under the writes issued since. */
  function File(s: State): Heap { Apply(s.disk, s.pend) }

  /** The records of one transaction: images in page order, header last. */
  function Block(t: TxnId, ws: seq<Write>): seq<Rec> {
    [TxnBegin(t)] + seq(|ws|, i requires 0 <= i < |ws| => PageWrite(t, ws[i])) + [TxnCommit(t)]
  }

  /** A commit logs data pages and, last, the header with the checkpoint it was read with. */
  ghost predicate Images(ws: seq<Write>, ckpt: nat) {
    && ws != [] && ws[|ws|-1].id == 0 && ws[|ws|-1].img.ckpt == ckpt
    && forall i :: 0 <= i < |ws| - 1 ==> ws[i].id != 0
  }

  ghost predicate Created(h: Heap) { 0 in h && h[0].ckpt == 0 }

  ghost predicate Init(created: Heap, s: State) {
    Created(created) && s == State(Idle, [], 0, 0, created, [], 0, 0)
  }

  // ---- steps ------------------------------------------------------------------

  function Append(s: State, r: Rec): State { s.(log := s.log + [r]) }
  function SyncLog(s: State): State { s.(durable := |s.log|) }
  function WritePage(s: State, w: Write): State { s.(pend := s.pend + [w]) }
  function SyncFile(s: State): State { s.(disk := File(s), pend := []) }

  /** A commit may begin at any time between operations. */
  ghost predicate BeginCommit(s: State, s': State, ws: seq<Write>) {
    && s.phase.Idle? && 0 in File(s) && Images(ws, File(s)[0].ckpt)
    && s' == s.(phase := Logging(ws, Block(s.nextTxn + 1, ws)), nextTxn := s.nextTxn + 1)
  }

  ghost predicate LogRecord(s: State, s': State) {
    && s.phase.Logging? && s.phase.todo != []
    && s' == Append(s, s.phase.todo[0]).(phase := Logging(s.phase.ws, s.phase.todo[1..]))
  }

  ghost predicate LogSynced(s: State, s': State) {
    && s.phase.Logging? && s.phase.todo == []
    && s' == SyncLog(s).(phase := Publishing(s.phase.ws, 0, File(s)))
  }

  ghost predicate PublishPage(s: State, s': State) {
    && s.phase.Publishing? && s.phase.k + 1 < |s.phase.ws|
    && s' == WritePage(s, s.phase.ws[s.phase.k]).(phase := Publishing(s.phase.ws, s.phase.k + 1, s.phase.base))
  }

  ghost predicate SyncData(s: State, s': State) {
    && s.phase.Publishing? && s.phase.k + 1 == |s.phase.ws|
    && s' == SyncFile(s).(phase := DataSynced(s.phase.ws, s.phase.base))
  }

  ghost predicate PublishHeader(s: State, s': State) {
    && s.phase.DataSynced? && s.phase.ws != []
    && s' == WritePage(s, s.phase.ws[|s.phase.ws|-1]).(phase := HeaderWritten(s.phase.ws, s.phase.base))
  }

  ghost predicate SyncHeader(s: State, s': State) {
    && s.phase.HeaderWritten?
    && s' == SyncFile(s).(phase := Idle, acked := s.acked + 1)
  }

  ghost predicate LogAbort(s: State, s': State, t: TxnId) {
    s.phase.Idle? && s' == Append(s, TxnAbort(t)).(phase := Aborting)
  }

  ghost predicate AbortSynced(s: State, s': State) {
    s.phase.Aborting? && s' == SyncLog(s).(phase := Idle)
  }

  /** FlushAll: every page write issued so far reaches the disk. */
  ghost predicate Flush(s: State, s': State) { s.phase.Idle? && s' == SyncFile(s) }

  /** A checkpoint logs its record right after such a flush. */
  ghost predicate LogCheckpoint(s: State, s': State) {
    s.phase.Idle? && s.pend == [] && s' == Append(s, Checkpoint).(phase := CheckpointLogged)
  }

  ghost predicate SyncCheckpoint(s: State, s': State) {
    s.phase.CheckpointLogged? && s' == SyncLog(s).(phase := CheckpointSynced)
  }

  ghost predicate WriteCheckpoint(s: State, s': State) {
    && s.phase.CheckpointSynced? && 0 in File(s)
    && s' == WritePage(s, Write(0, File(s)[0].(ckpt := s.durable))).(phase := CheckpointHeader)
  }

  ghost predicate SyncCheckpointHeader(s: State, s': State) {
    s.phase.CheckpointHeader? && s' == SyncFile(s).(phase := CheckpointDone)
  }

  /** Truncate deletes some of the segments that end at or before the checkpoint. */
  ghost predicate Truncate(s: State, s': State, low: nat) {
    && s.phase.CheckpointDone? && 0 in s.disk && s.low <= low <= s.disk[0].ckpt
    && s' == s.(phase := Idle, low := low)
  }

  /** A checkpoint or an abort returns the error of the step it is at, and the
      engine goes on: the log may end with a record that is not synced, or the
      file hold a header that is not. */
  ghost predicate GiveUp(s: State, s': State) {
    && (s.phase.Aborting? || s.phase.CheckpointLogged? || s.phase.CheckpointSynced? || s.phase.CheckpointHeader?
        || s.phase.CheckpointDone?)
    && s' == s.(phase := Idle)
  }

  /** An error in a commit: the engine takes no further commit. */
  ghost predicate Fail(s: State, s': State) {
    !s.phase.Down? && !s.phase.Recovering? && s' == s.(phase := Broken)
  }

  /** Each page keeps its synced value or one written since. */
  ghost predicate Survives(disk: Heap, pend: seq<Write>, after: Heap) {
    forall p :: (p in disk && p in after && after[p] == disk[p]) || (p !in disk && p !in after)
      || (p in after && Write(p, after[p]) in pend)
  }

  ghost predicate Crash(s: State, s': State, n: nat, after: Heap) {
    && s.durable <= n <= |s.log| && Survives(s.disk, s.pend, after)
    && s' == s.(phase := Down, log := s.log[..n], durable := n, disk := after, pend := [], nextTxn := 0)
  }

  /** The process ends and the system does not: written pages stay readable,
      synced or not, and so do the first n records of the log. */
  function Killed(s: State, n: nat): State
    requires n <= |s.log|
  { s.(phase := Down, log := s.log[..n], nextTxn := 0) }

  /** No record that is not synced commits anything. */
  ghost predicate Synced(s: State, n: nat)
    requires s.durable <= |s.log| && n <= |s.log|
  { Committed(s.log[..n]) == Committed(s.log[..s.durable]) }

  ghost predicate Kill(s: State, s': State, n: nat) {
    s.durable <= n <= |s.log| && Synced(s, n) && s' == Killed(s, n)
  }

  ghost predicate StartRecovery(s: State, s': State) {
    && s.phase.Down? && 0 in File(s) && s.low <= File(s)[0].ckpt <= |s.log|
    && s' == s.(phase := Recovering(0, File(s)), nextTxn := Replay(s.log[File(s)[0].ckpt..]).maxTxn)
  }

  ghost predicate InstallImage(s: State, s': State) {
    && s.phase.Recovering? && 0 in s.phase.base && s.phase.base[0].ckpt <= |s.log|
    && var ws := Replay(s.log[s.phase.base[0].ckpt..]).installs;
    && s.phase.k < |ws| && s' == WritePage(s, ws[s.phase.k]).(phase := Recovering(s.phase.k + 1, s.phase.base))
  }

  ghost predicate FinishRecovery(s: State, s': State) {
    && s.phase.Recovering? && 0 in s.phase.base && s.phase.base[0].ckpt <= |s.log|
    && s.phase.k == |Replay(s.log[s.phase.base[0].ckpt..]).installs|
    && s' == SyncFile(s).(phase := Idle, acked := |Committed(s.log)|)
  }

  /** The images that replay from c on installs. */
  function Installs(log: seq<Rec>, c: nat): seq<Write> {
    if c <= |log| then Flatten(Committed(log[c..])) else []
  }

  /** The checkpoints that a crash may leave in the header. */
  ghost predicate MayStart(s: State, c: nat) {
    (0 in s.disk && s.disk[0].ckpt == c) || exists w :: w in s.pend && w.id == 0 && w.img.ckpt == c
  }

  /** While the header with the newer checkpoint is not synced, a commit may log
      it only if replay from the older one brings no page outside the commit
      back to other bytes than it has now. */
  ghost predicate Careful(s: State, ws: seq<Write>) {
    0 in File(s) && forall c, w ::
      MayStart(s, c) && c != File(s)[0].ckpt && w in Installs(s.log, c) && !Touches(ws, w.id) ==>
        w.id in File(s) && File(s)[w.id].body == w.img.body
  }

  datatype Step =
    | BeginCommitStep(ws: seq<Write>) | LogRecordStep | LogSyncedStep | PublishPageStep | SyncDataStep
      | PublishHeaderStep | SyncHeaderStep
    | LogAbortStep(t: TxnId) | AbortSyncedStep | FlushStep
    | LogCheckpointStep | SyncCheckpointStep | WriteCheckpointStep | SyncCheckpointHeaderStep
      | TruncateStep(low: nat) | GiveUpStep
    | FailStep | CrashStep(n: nat, after: Heap) | KillStep(n: nat)
    | StartRecoveryStep | InstallImageStep | FinishRecoveryStep

  ghost predicate Next(s: State, s': State, step: Step) {
    match step
    case BeginCommitStep(ws) => BeginCommit(s, s', ws) && Careful(s, ws)
    case LogRecordStep => LogRecord(s, s')
    case LogSyncedStep => LogSynced(s, s')
    case PublishPageStep => PublishPage(s, s')
    case SyncDataStep => SyncData(s, s')
    case PublishHeaderStep => PublishHeader(s, s')
    case SyncHeaderStep => SyncHeader(s, s')
    case LogAbortStep(t) => LogAbort(s, s', t)
    case AbortSyncedStep => AbortSynced(s, s')
    case FlushStep => Flush(s, s')
    case LogCheckpointStep => LogCheckpoint(s, s')
    case SyncCheckpointStep => SyncCheckpoint(s, s')
    case WriteCheckpointStep => WriteCheckpoint(s, s')
    case SyncCheckpointHeaderStep => SyncCheckpointHeader(s, s')
    case TruncateStep(low) => Truncate(s, s', low)
    case GiveUpStep => GiveUp(s, s')
    case FailStep => Fail(s, s')
    case CrashStep(n, after) => Crash(s, s', n, after)
    case KillStep(n) => Kill(s, s', n)
    case StartRecoveryStep => StartRecovery(s, s')
    case InstallImageStep => InstallImage(s, s')
    case FinishRecoveryStep => FinishRecovery(s, s')
  }

  // ---- invariant --------------------------------------------------------------

  /** Page p holds the same bytes in both, up to the checkpoint field of the header. */
  predicate SamePage(h: Heap, g: Heap, p: PageId) {
    (p in h <==> p in g) && (p in h ==> h[p].body == g[p].body)
  }

  ghost predicate SameBytes(h: Heap, g: Heap) { forall p :: SamePage(h, g, p) }

  /** Committed transactions from LSN c on rewrite page p. */
  ghost predicate Covered(log: seq<Rec>, c: nat, p: PageId) { Touches(Installs(log, c), p) }

  /** What is written has the bytes of the database. */
  predicate Right(db: Heap, w: Write) { w.id in db && w.img.body == db[w.id].body }

  /** The values that page p may have, its own and those in ws, are right unless replay from c rewrites it. */
  ghost predicate SafePage(created: Heap, disk: Heap, ws: seq<Write>, log: seq<Rec>, c: nat, p: PageId) {
    var db := Database(created, log);
    Covered(log, c, p) || (SamePage(disk, db, p) && forall w :: w in ws && w.id == p ==> Right(db, w))
  }

  ghost predicate Safe(created: Heap, disk: Heap, ws: seq<Write>, log: seq<Rec>, c: nat) {
    forall p :: SafePage(created, disk, ws, log, c, p)
  }

  /** Replay from c may leave the checkpoint x in the header. */
  ghost predicate Leads(log: seq<Rec>, c: nat, x: nat) {
    x == c || exists w :: w in Installs(log, c) && w.id == 0 && w.img.ckpt == x
  }

  /** The checkpoint from which a recovery runs, or would run if the process ended now. */
  ghost function Root(s: State): nat {
    if s.phase.Recovering? && 0 in s.phase.base then s.phase.base[0].ckpt
    else if 0 in File(s) then File(s)[0].ckpt else 0
  }

  /** The writes that may reach the file until a recovery from c that is cut short again. */
  ghost function Later(s: State, log: seq<Rec>, c: nat): seq<Write> {
    s.pend + (Installs(log, c) + Installs(log, Root(s)))
  }

  /** The log from x on is there and can be replayed. */
  ghost predicate Sturdy(s: State, x: nat) {
    && s.low <= x <= s.durable <= |s.log| && Contiguous(s.log[x..]) && Numbered(s.log[x..])
    && (!s.phase.Down? && !s.phase.Recovering? ==> WritesUpTo(s.log[x..], s.nextTxn))
  }

  /** The checkpoints in headers never go down. */
  ghost predicate Sorted(ws: seq<Write>) {
    forall i, j :: 0 <= i < j < |ws| && ws[i].id == 0 && ws[j].id == 0 ==> ws[i].img.ckpt <= ws[j].img.ckpt
  }

  ghost predicate Rises(log: seq<Rec>, c: nat) {
    Sorted(Installs(log, c)) && forall x, y :: Leads(log, c, x) && Leads(log, x, y) ==> x <= y
  }

  /** Recovery from checkpoint c would work after a crash at any point of the log, and
      so would the recovery after that one, from whatever checkpoint it leaves. */
  ghost predicate GoodStart(created: Heap, s: State, c: nat) {
    && Rises(s.log, c) && (forall x :: Leads(s.log, c, x) ==> Sturdy(s, x))
    && (forall n, x :: s.durable <= n <= |s.log| && Leads(s.log[..n], c, x) ==>
      Safe(created, s.disk, Later(s, s.log[..n], c), s.log[..n], x))
  }

  /** The log holds what was acknowledged, and at most one transaction more. */
  ghost predicate Tally(s: State)
    requires s.durable <= |s.log|
  { s.acked <= |Committed(s.log[..s.durable])| && |Committed(s.log)| <= s.acked + 1 }

  ghost predicate Core(created: Heap, s: State) {
    && 0 in created && 0 in s.disk && s.durable <= |s.log| && Contiguous(s.log)
    && (forall c :: MayStart(s, c) ==> GoodStart(created, s, c)) && Tally(s)
  }

  /** The database after all transactions in the log. */
  function Db(created: Heap, s: State): Heap { Database(created, s.log) }

  /** Nothing waits for a sync but the header of a checkpoint behind which nothing is committed. */
  ghost predicate Waiting(s: State) {
    s.pend == [] ||
    (&& |s.pend| == 1 && s.pend[0].id == 0 && 0 in s.disk && s.pend[0].img.body == s.disk[0].body
     && Installs(s.log, s.pend[0].img.ckpt) == [])
  }

  /** The file shows the newest checkpoint. */
  ghost predicate Newest(s: State, top: nat) {
    forall c: nat, x: nat :: MayStart(s, c) && Leads(s.log, c, x) ==> x <= top
  }

  ghost predicate Settled(created: Heap, s: State) {
    Waiting(s) && Newest(s, Root(s)) && SameBytes(s.disk, Db(created, s)) && s.acked == |Committed(s.log)|
  }

  /** Where the block that is being logged begins. */
  function Cut(s: State): int
    requires s.phase.Logging?
  { |s.log| + |s.phase.todo| - |Block(s.nextTxn, s.phase.ws)| }

  /** The state when that commit began. */
  function Before(s: State): State
    requires s.phase.Logging? && 0 <= Cut(s) <= |s.log|
  { s.(log := s.log[..Cut(s)]) }

  /** The log ends with the block of a committed transaction ws, not yet acknowledged. */
  ghost predicate Committing(created: Heap, s: State, ws: seq<Write>, base: Heap) {
    && s.durable == |s.log| && |Block(s.nextTxn, ws)| <= |s.log|
    && var cut := |s.log| - |Block(s.nextTxn, ws)|;
    && s.log[cut..] == Block(s.nextTxn, ws) && SameBytes(base, Database(created, s.log[..cut]))
    && 0 in base && Images(ws, base[0].ckpt) && Newest(s, cut) && Newest(s, base[0].ckpt)
    && |Committed(s.log)| == s.acked + 1
  }

  /** The last writes issued are ws, over base. */
  ghost predicate Writing(s: State, base: Heap, ws: seq<Write>) {
    |ws| <= |s.pend| && s.pend[|s.pend| - |ws|..] == ws && base == Apply(s.disk, s.pend[..|s.pend| - |ws|])
  }

  ghost predicate PhaseOk(created: Heap, s: State) {
    match s.phase
    case Idle => Settled(created, s)
    case Logging(ws, todo) =>
      && s.durable <= Cut(s) <= |s.log| && s.log[Cut(s)..] + todo == Block(s.nextTxn, ws) && s.nextTxn > 0
      && Settled(created, Before(s)) && Careful(Before(s), ws) && Images(ws, File(s)[0].ckpt)
      && (forall c: nat :: MayStart(s, c) && c <= Cut(s) ==> WritesUpTo(s.log[c..Cut(s)], s.nextTxn - 1))
    case Publishing(ws, k, base) => Committing(created, s, ws, base) && k < |ws| && Writing(s, base, ws[..k])
    case DataSynced(ws, base) => Committing(created, s, ws, base) && s.disk == Apply(base, ws[..|ws|-1]) && s.pend == []
    case HeaderWritten(ws, base) => Committing(created, s, ws, base) && s.disk == Apply(base, ws[..|ws|-1])
      && s.pend == [ws[|ws|-1]]
    case Aborting => Settled(created, s)
    case CheckpointLogged => Settled(created, s) && s.pend == []
    case CheckpointSynced => Settled(created, s) && s.pend == [] && s.durable == |s.log|
    case CheckpointHeader => Settled(created, s)
    case CheckpointDone => Settled(created, s) && s.pend == []
    case Broken => true
    case Down => s.durable <= |s.log| && Synced(s, |s.log|)
    case Recovering(k, base) =>
      && s.durable <= |s.log| && Synced(s, |s.log|) && 0 in base && base[0].ckpt <= s.durable
      && k <= |Installs(s.log, base[0].ckpt)| && Writing(s, base, Installs(s.log, base[0].ckpt)[..k])
      && WritesUpTo(s.log[base[0].ckpt..], s.nextTxn)
  }

  ghost predicate Inv(created: Heap, s: State) { Core(created, s) && PhaseOk(created, s) }
}
