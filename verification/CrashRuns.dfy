/**
 * What commit and recovery guarantee over whole runs, whatever the order of
 * commits, checkpoints, failures and crashes and wherever each crash falls, as long
 * as each commit that begins before a checkpoint header is synced is a careful one
 * and no process is killed between writing a commit record and syncing it.
 */
module CrashRuns {
  import opened Recovery
  import opened CrashMachine
  import opened CrashStarts
  import opened CrashSteps

  ghost predicate Run(created: Heap, run: seq<State>, steps: seq<Step>) {
    && |run| == |steps| + 1 && Init(created, run[0])
    && forall i :: 0 <= i < |steps| ==> Next(run[i], run[i+1], steps[i])
  }

  lemma {:induction false} RunInv(created: Heap, run: seq<State>, steps: seq<Step>, i: nat)
    requires Run(created, run, steps) && i < |run|
    ensures Inv(created, run[i])
  {
    if i == 0 { InvInit(created, run[0]); }
    else {
      RunInv(created, run, steps, i - 1);
      InvNext(created, run[i-1], run[i], steps[i-1]);
    }
  }

  /** Between operations the file holds exactly the committed transactions. */
  lemma {:induction false} IdleIsDatabase(created: Heap, run: seq<State>, steps: seq<Step>, i: nat)
    requires Run(created, run, steps) && i < |run| && run[i].phase.Idle?
    ensures SameBytes(File(run[i]), Database(created, run[i].log)) && run[i].acked == |Committed(run[i].log)|
  {
    RunInv(created, run, steps, i);
    hide Core, Database, Committed, File;
    FileSettled(created, run[i]);
  }

  /** A crash anywhere keeps the acknowledged transactions and at most one more. */
  ghost predicate KeepsAcked(s: State, n: nat)
    requires s.durable <= n <= |s.log|
  {
    && Committed(s.log[..n]) <= Committed(s.log)
    && s.acked <= |Committed(s.log[..n])| <= s.acked + 1
  }

  lemma {:induction false} CrashKeepsAcked(created: Heap, s: State, n: nat)
    requires Inv(created, s) && s.durable <= n <= |s.log|
    ensures KeepsAcked(s, n)
  {
    assert s.log[..n][..s.durable] == s.log[..s.durable];
    CommittedPrefix(s.log, n);
    CommittedPrefix(s.log[..n], s.durable);
  }

  /** Replay over the pages that survive gives the database of the log that survives. */
  ghost predicate Rebuilt(created: Heap, s: State, n: nat, after: Heap)
    requires n <= |s.log|
  {
    && 0 in after && s.low <= after[0].ckpt <= n
    && SameBytes(Apply(after, Replay(s.log[..n][after[0].ckpt..]).installs), Database(created, s.log[..n]))
  }

  lemma {:induction false} ReplayInstalls(log: seq<Rec>, c: nat)
    requires c <= |log| && Contiguous(log[c..]) && Numbered(log[c..])
    ensures Replay(log[c..]).installs == Installs(log, c)
  { ReplayIsCommitted(log[c..]); }

  lemma {:induction false} ReplayRebuilds(created: Heap, s: State, n: nat, after: Heap)
    requires Inv(created, s) && s.durable <= n <= |s.log| && Survives(s.disk, s.pend, after)
    ensures Rebuilt(created, s, n, after)
  {
    hide PhaseOk, Installs, Safe, Replay, Apply, Database, Tally, WritesUpTo;
    assert 0 in after;
    var c, log := after[0].ckpt, s.log[..n];
    assert MayStart(s, c);
    StartWrites(created, s, c);
    assert GoodStart(created, s, c) && Leads(log, c, c);
    var ws := Later(s, log, c);
    assert Safe(created, s.disk, ws, log, c) && forall w :: w in s.pend ==> w in ws;
    hide Core, GoodStart, MayStart, Leads, Later, Survives, Contiguous, Numbered;
    SafeSettle(created, s.disk, ws, s.pend, after, [], log, c);
    CutSuffix(s.log, n, c);
    ContiguousPrefix(s.log[c..], n - c);
    NumberedPrefix(s.log[c..], n - c);
    ReplayInstalls(log, c);
    Rebuilds(created, after, log, c);
  }

  /** In every run, after a crash at any moment that cuts the log anywhere past
      its durable end and keeps any mix of the unsynced page writes, recover
      finds its checkpoint and rebuilds the database of the transactions whose
      TxnCommit survived: all the acknowledged ones and at most one more. */
  lemma {:induction false} CrashRecovery(created: Heap, run: seq<State>, steps: seq<Step>, i: nat, n: nat, after: Heap)
    requires Run(created, run, steps) && i < |run|
    requires run[i].durable <= n <= |run[i].log| && Survives(run[i].disk, run[i].pend, after)
    ensures Rebuilt(created, run[i], n, after)
    ensures KeepsAcked(run[i], n)
  {
    RunInv(created, run, steps, i);
    CrashKeepsAcked(created, run[i], n);
    ReplayRebuilds(created, run[i], n, after);
  }

  /** Opening the file after a crash, with the loop of recover. */
  method Reopen(ghost created: Heap, ghost run: seq<State>, ghost steps: seq<Step>, ghost i: nat, log: seq<Rec>,
                file: Heap)
      returns (ok: bool, heap: Heap, nextTxn: nat)
    requires Run(created, run, steps) && i < |run|
    requires run[i].durable <= |log| <= |run[i].log| && log == run[i].log[..|log|]
      && Survives(run[i].disk, run[i].pend, file)
    ensures ok && SameBytes(heap, Database(created, log))
  {
    CrashRecovery(created, run, steps, i, |log|, file);
    ok, heap, nextTxn := Recover(log, file[0].ckpt, file);
  }

  // ---- durability and atomicity over runs ----------------------------------------

  /** The transactions that have been acknowledged. */
  ghost function Acked(s: State): seq<seq<Write>>
    requires s.acked <= |Committed(s.log)|
  { Committed(s.log)[..s.acked] }

  lemma {:induction false} AckedCommitted(created: Heap, s: State)
    requires Inv(created, s)
    ensures s.acked <= |Committed(s.log)|
  { CommittedPrefix(s.log, s.durable); }

  /** How one step changes what the log commits. */
  ghost predicate Extends(s: State, s': State) {
    || s'.log == s.log
    || (s.durable <= |s'.log| <= |s.log| && s'.log == s.log[..|s'.log|])
    || (exists r :: s'.log == s.log + [r] && Committed(s'.log) == Committed(s.log))
    || (s.phase.Logging? && Committed(s'.log) == Committed(s.log) + [s.phase.ws])
  }

  lemma {:induction false} StepExtends(created: Heap, s: State, s': State, step: Step)
    requires Inv(created, s) && Next(s, s', step)
    ensures Extends(s, s')
  {
    hide Core, Committed, Careful, Settled, Committing, Replay, Block;
    match step {
      case LogRecordStep =>
        if s.phase.todo[0].TxnCommit? { LastRecord(created, s); } else { NothingMore(s.log, s.phase.todo[0]); }
      case LogAbortStep(t) => NothingMore(s.log, TxnAbort(t));
      case LogCheckpointStep => NothingMore(s.log, Checkpoint);
      case _ =>
    }
  }

  lemma {:induction false} NothingMore(log: seq<Rec>, r: Rec)
    requires !r.TxnCommit?
    ensures Committed(log + [r]) == Committed(log)
  { CommitGrows(log, r); }

  /** The commit record commits the whole transaction. */
  lemma {:induction false} LastRecord(created: Heap, s: State)
    requires Inv(created, s) && s.phase.Logging? && s.phase.todo != [] && s.phase.todo[0].TxnCommit?
    ensures Committed(s.log + [s.phase.todo[0]]) == Committed(s.log) + [s.phase.ws]
  {
    hide Core, Committed, Gain;
    LoggedSoFar(created, s);
    BlockGains(created, s);
    CommitGrows(s.log, s.phase.todo[0]);
  }

  lemma {:induction false} StepKeepsAcked(created: Heap, s: State, s': State, step: Step)
    requires Inv(created, s) && Inv(created, s') && Next(s, s', step)
    ensures s.acked <= s'.acked && s.acked <= |Committed(s.log)| && s'.acked <= |Committed(s'.log)|
      && Acked(s) <= Acked(s')
  {
    AckedCommitted(created, s);
    AckedCommitted(created, s');
    StepExtends(created, s, s', step);
    hide Core, PhaseOk;
    if s.durable <= |s'.log| <= |s.log| && s'.log == s.log[..|s'.log|] {
      CommittedPrefix(s.log, |s'.log|);
      CrashKeepsAcked(created, s, |s'.log|);
    }
    hide Committed;
    match step { case _ => }
  }

  /** A commit that was acknowledged stays committed, in the same place, for the
      rest of the run. */
  lemma {:induction false} Durability(created: Heap, run: seq<State>, steps: seq<Step>, i: nat, j: nat)
    requires Run(created, run, steps) && i <= j < |run|
    ensures run[i].acked <= |Committed(run[i].log)| && run[j].acked <= |Committed(run[j].log)|
      && Acked(run[i]) <= Acked(run[j])
    decreases j - i
  {
    RunInv(created, run, steps, i);
    AckedCommitted(created, run[i]);
    if i < j {
      RunInv(created, run, steps, i + 1);
      StepKeepsAcked(created, run[i], run[i+1], steps[i]);
      Durability(created, run, steps, i + 1, j);
    }
  }

  /** The images being logged or published are those of a BeginCommit. */
  lemma {:induction false} LoggingBegun(created: Heap, run: seq<State>, steps: seq<Step>, i: nat)
    requires Run(created, run, steps) && i < |run| && run[i].phase.Logging?
    ensures exists k :: 0 <= k < i && steps[k] == BeginCommitStep(run[i].phase.ws)
  {
    if i > 0 {
      match steps[i-1] {
        case BeginCommitStep(ws) => assert steps[i-1] == BeginCommitStep(run[i].phase.ws);
        case LogRecordStep => LoggingBegun(created, run, steps, i - 1);
        case _ =>
      }
    }
  }

  /** Atomicity: a log only ever commits whole transactions that were begun. */
  lemma {:induction false} Atomicity(created: Heap, run: seq<State>, steps: seq<Step>, i: nat, j: nat)
    requires Run(created, run, steps) && i < |run| && j < |Committed(run[i].log)|
    ensures exists k :: 0 <= k < i && steps[k] == BeginCommitStep(Committed(run[i].log)[j])
  {
    if i > 0 {
      hide Committed, Inv, Next;
      var s, s' := run[i-1], run[i];
      RunInv(created, run, steps, i - 1);
      StepExtends(created, s, s', steps[i-1]);
      CommitsOf(s, s', j);
      if j < |Committed(s.log)| && Committed(s'.log)[j] == Committed(s.log)[j] {
        Atomicity(created, run, steps, i - 1, j);
      } else {
        LoggingBegun(created, run, steps, i - 1);
      }
    }
  }

  lemma {:induction false} CommitsOf(s: State, s': State, j: nat)
    requires Extends(s, s') && j < |Committed(s'.log)|
    ensures (j < |Committed(s.log)| && Committed(s'.log)[j] == Committed(s.log)[j])
      || (s.phase.Logging? && Committed(s'.log)[j] == s.phase.ws)
  {
    hide Committed;
    if |s'.log| <= |s.log| && s'.log == s.log[..|s'.log|] { CommittedPrefix(s.log, |s'.log|); }
  }

  /** Acknowledging happens once the transaction is the last one committed and in the file. */
  lemma {:induction false} AckedIsCommitted(created: Heap, run: seq<State>, steps: seq<Step>, i: nat)
    requires Run(created, run, steps) && i < |steps| && steps[i] == SyncHeaderStep
    ensures run[i].phase.HeaderWritten? && run[i+1].acked == |Committed(run[i+1].log)| > 0
    ensures Committed(run[i+1].log)[run[i+1].acked - 1] == run[i].phase.ws
    ensures SameBytes(run[i+1].disk, Database(created, run[i+1].log)) && run[i+1].pend == []
  {
    RunInv(created, run, steps, i);
    RunInv(created, run, steps, i + 1);
    var s := run[i];
    BlockDatabase(created, s.log, |s.log| - |Block(s.nextTxn, s.phase.ws)|, s.nextTxn, s.phase.ws);
  }
}
