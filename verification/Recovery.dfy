/**
 * The write-ahead log as recovery reads it: which transactions a log commits,
 * and what replaying their page images does to the heap file.
 */
module Recovery {

  type PageId = nat
  type TxnId = nat

  /** A page image. Page 0 is the file header; its `ckpt` is the checkpoint LSN. */
  datatype Image = Image(body: seq<nat>, ckpt: nat)

  datatype Write = Write(id: PageId, img: Image)

  datatype Rec =
    | TxnBegin(tx: TxnId)
    | PageWrite(tx: TxnId, w: Write)
    | TxnCommit(tx: TxnId)
    | TxnAbort(tx: TxnId)
    | Checkpoint

  type Heap = map<PageId, Image>

  // ---- applying page writes -------------------------------------------------

  function Apply(h: Heap, ws: seq<Write>): Heap {
    if ws == [] then h else Apply(h, ws[..|ws|-1])[ws[|ws|-1].id := ws[|ws|-1].img]
  }

  predicate Touches(ws: seq<Write>, p: PageId) { exists i :: 0 <= i < |ws| && ws[i].id == p }

  lemma {:induction false} ApplyAppend(h: Heap, a: seq<Write>, b: seq<Write>)
    ensures Apply(h, a + b) == Apply(Apply(h, a), b)
  {
    if b == [] { assert a + b == a; }
    else {
      var n := |b| - 1;
      assert (a + b)[..|a + b|-1] == a + b[..n];
      ApplyAppend(h, a, b[..n]);
    }
  }

  /** A page nobody writes stays; a written page no longer depends on the start. */
  lemma {:induction false} ApplyPage(h: Heap, g: Heap, ws: seq<Write>, p: PageId)
    ensures !Touches(ws, p) ==> (p in Apply(h, ws) <==> p in h) && (p in h ==> Apply(h, ws)[p] == h[p])
    ensures Touches(ws, p) ==> p in Apply(h, ws) && p in Apply(g, ws) && Apply(h, ws)[p] == Apply(g, ws)[p]
    ensures Touches(ws, p) ==> exists i :: 0 <= i < |ws| && ws[i] == Write(p, Apply(h, ws)[p])
  {
    if ws != [] {
      var n := |ws| - 1;
      ApplyPage(h, g, ws[..n], p);
      if ws[n].id == p {
        assert ws[n] == Write(p, Apply(h, ws)[p]);
      } else {
        assert Touches(ws, p) <==> Touches(ws[..n], p) by {
          if i :| 0 <= i < |ws| && ws[i].id == p { assert ws[..n][i].id == p; }
        }
      }
    }
  }

  // ---- what a log means -----------------------------------------------------

  /** The transactions committed so far, and the transaction being logged. */
  datatype History = History(done: seq<seq<Write>>, current: Current)
  datatype Current = NoTxn | Txn(tx: TxnId, ws: seq<Write>)

  /** A transaction is a TxnBegin, its page images and its TxnCommit, in a row. */
  function After(h: History, r: Rec): History {
    match r
    case TxnBegin(t) => h.(current := Txn(t, []))
    case PageWrite(t, w) => if h.current.Txn? && h.current.tx == t then h.(current := Txn(t, h.current.ws + [w])) else h
    case TxnCommit(t) => if h.current.Txn? && h.current.tx == t then History(h.done + [h.current.ws], NoTxn) else h
    case TxnAbort(_) => h
    case Checkpoint => h
  }

  function Scan(h: History, log: seq<Rec>): History {
    if log == [] then h else After(Scan(h, log[..|log|-1]), log[|log|-1])
  }

  const GENESIS := History([], NoTxn)

  function Committed(log: seq<Rec>): seq<seq<Write>> { Scan(GENESIS, log).done }

  function Flatten(txs: seq<seq<Write>>): seq<Write> {
    if txs == [] then [] else Flatten(txs[..|txs|-1]) + txs[|txs|-1]
  }

  /** The database a log stands for, from the heap the file was created with. */
  function Database(created: Heap, log: seq<Rec>): Heap { Apply(created, Flatten(Committed(log))) }

  lemma {:induction false} ScanAppend(h: History, a: seq<Rec>, b: seq<Rec>)
    ensures Scan(h, a + b) == Scan(Scan(h, a), b)
  {
    if b == [] { assert a + b == a; }
    else {
      var n := |b| - 1;
      assert (a + b)[..|a + b|-1] == a + b[..n];
      ScanAppend(h, a, b[..n]);
    }
  }

  lemma {:induction false} FlattenAppend(a: seq<seq<Write>>, b: seq<seq<Write>>)
    ensures Flatten(a + b) == Flatten(a) + Flatten(b)
  {
    if b == [] { assert a + b == a; }
    else {
      var n := |b| - 1;
      assert (a + b)[..|a + b|-1] == a + b[..n];
      FlattenAppend(a, b[..n]);
      assert Flatten(a) + (Flatten(b[..n]) + b[n]) == Flatten(a) + Flatten(b[..n]) + b[n];
    }
  }

  predicate InTxn(r: Rec) { r.TxnBegin? || r.PageWrite? }

  /** The records of one transaction are adjacent: logPages appends them under the commit lock. */
  predicate Contiguous(log: seq<Rec>) {
    forall i :: 0 <= i < |log| && (log[i].PageWrite? || log[i].TxnCommit?) ==>
      i > 0 && InTxn(log[i-1]) && log[i-1].tx == log[i].tx
  }

  /** A transaction begins with an id above that of every earlier page image. */
  predicate Numbered(log: seq<Rec>) {
    forall i, j :: 0 <= j < i < |log| && log[i].TxnBegin? && log[j].PageWrite? ==> log[j].tx < log[i].tx
  }

  /** What came before a log does not matter to what it commits. */
  lemma {:induction false} ScanFrom(h: History, log: seq<Rec>)
    requires Contiguous(log)
    ensures Scan(h, log).done == h.done + Committed(log)
    ensures log != [] && InTxn(log[|log|-1]) ==>
      Scan(h, log).current == Scan(GENESIS, log).current && Scan(h, log).current.Txn?
        && Scan(h, log).current.tx == log[|log|-1].tx
  {
    if log != [] {
      var n := |log| - 1;
      ScanFrom(h, log[..n]);
      if n > 0 { assert log[..n][n-1] == log[n-1]; }
    }
  }

  lemma {:induction false} CommittedAppend(a: seq<Rec>, b: seq<Rec>)
    requires Contiguous(b)
    ensures Committed(a + b) == Committed(a) + Committed(b)
  {
    ScanAppend(GENESIS, a, b);
    ScanFrom(Scan(GENESIS, a), b);
  }

  /** A longer log commits more. */
  lemma {:induction false} CommittedPrefix(log: seq<Rec>, n: nat)
    requires n <= |log|
    ensures Committed(log[..n]) <= Committed(log)
  {
    if n < |log| {
      var m := |log| - 1;
      assert log[..m][..n] == log[..n];
      CommittedPrefix(log[..m], n);
    } else {
      assert log[..n] == log;
    }
  }

  // ---- replay -----------------------------------------------------------------

  /** The state of recover's loop: images per open transaction, images installed
      in order, and the largest transaction id seen. */
  datatype Replayed = Replayed(pending: map<TxnId, seq<Write>>, installs: seq<Write>, maxTxn: nat)

  function Max(a: nat, b: nat): nat { if a < b then b else a }

  function Replay(log: seq<Rec>): Replayed {
    if log == [] then Replayed(map[], [], 0)
    else
      var s, r := Replay(log[..|log|-1]), log[|log|-1];
      match r
      case TxnBegin(t) => s.(maxTxn := Max(s.maxTxn, t))
      case PageWrite(t, w) =>
        s.(pending := s.pending[t := (if t in s.pending then s.pending[t] else []) + [w]], maxTxn := Max(s.maxTxn, t))
      case TxnCommit(t) =>
        Replayed(s.pending - {t}, if t in s.pending then s.installs + s.pending[t] else s.installs, Max(s.maxTxn, t))
      case TxnAbort(t) => s.(pending := s.pending - {t}, maxTxn := Max(s.maxTxn, t))
      case Checkpoint => s
  }

  /** The pages of one transaction go to the file in log order. */
  method Install(ghost file: Heap, ghost installs: seq<Write>, before: Heap, ws: seq<Write>) returns (heap: Heap)
    requires before == Apply(file, installs)
    ensures heap == Apply(file, installs + ws)
  {
    heap := before;
    assert installs + ws[..0] == installs;
    for j := 0 to |ws|
      invariant heap == Apply(file, installs + ws[..j])
    {
      assert (installs + ws[..j+1])[..|installs| + j] == installs + ws[..j];
      heap := heap[ws[j].id := ws[j].img];
    }
    assert ws[..|ws|] == ws;
  }

  /** recover: one pass over the records from the checkpoint on. */
  method Recover(log: seq<Rec>, ckpt: nat, file: Heap) returns (ok: bool, heap: Heap, nextTxn: nat)
    ensures ok <==> ckpt <= |log|
    ensures ok ==> heap == Apply(file, Replay(log[ckpt..]).installs) && nextTxn == Replay(log[ckpt..]).maxTxn
    ensures ok ==> Largest(log[ckpt..], nextTxn)
  {
    heap, nextTxn := file, 0;
    if |log| < ckpt { return false, heap, nextTxn; }
    ok := true;
    assert log[ckpt..] == log[ckpt..|log|];
    ReplayLargest(log[ckpt..]);
    var pending: map<TxnId, seq<Write>> := map[];
    ghost var installs := [];
    for i := ckpt to |log|
      invariant heap == Apply(file, installs)
      invariant Replay(log[ckpt..i]) == Replayed(pending, installs, nextTxn)
    {
      assert log[ckpt..i+1][..i-ckpt] == log[ckpt..i];
      var rec := log[i];
      if !rec.Checkpoint? && rec.tx > nextTxn { nextTxn := rec.tx; }
      match rec {
        case TxnBegin(t) =>
        case TxnAbort(t) => pending := pending - {t};
        case Checkpoint =>
        case PageWrite(t, w) => pending := pending[t := (if t in pending then pending[t] else []) + [w]];
        case TxnCommit(t) =>
          if t in pending {
            heap := Install(file, installs, heap, pending[t]);
            installs := installs + pending[t];
          }
          pending := pending - {t};
      }
    }
  }

  /** n is the largest transaction id in the log, 0 if there is none. */
  ghost predicate Largest(log: seq<Rec>, n: TxnId) {
    && (forall r :: r in log && !r.Checkpoint? ==> r.tx <= n)
    && (n == 0 || exists r :: r in log && !r.Checkpoint? && r.tx == n)
  }

  lemma {:induction false} ReplayLargest(log: seq<Rec>)
    ensures Largest(log, Replay(log).maxTxn)
  {
    if log != [] {
      var n := |log| - 1;
      ReplayLargest(log[..n]);
      assert log == log[..n] + [log[n]];
      var m := Replay(log[..n]).maxTxn;
      if m != 0 {
        var r :| r in log[..n] && !r.Checkpoint? && r.tx == m;
        assert r in log;
      }
      assert log[n] in log;
    }
  }

  /** Page images carry ids no larger than n. */
  predicate WritesUpTo(log: seq<Rec>, n: nat) { forall i :: 0 <= i < |log| && log[i].PageWrite? ==> log[i].tx <= n }

  lemma {:induction false} PendingWritten(log: seq<Rec>, t: TxnId)
    requires t in Replay(log).pending
    ensures exists i :: 0 <= i < |log| && log[i].PageWrite? && log[i].tx == t
  {
    var n := |log| - 1;
    if log[n].PageWrite? && log[n].tx == t {
    } else {
      PendingWritten(log[..n], t);
      var i :| 0 <= i < n && log[..n][i].PageWrite? && log[..n][i].tx == t;
      assert log[i] == log[..n][i];
    }
  }

  /** Replay installs exactly the page images of the committed transactions, in
      commit order: images of torn transactions are never picked up. */
  lemma {:induction false} ReplayIsCommitted(log: seq<Rec>)
    requires Contiguous(log) && Numbered(log)
    ensures Replay(log).installs == Flatten(Committed(log))
    ensures log != [] && InTxn(log[|log|-1]) ==>
      var t, c := log[|log|-1].tx, Scan(GENESIS, log).current;
      c.Txn? && c.tx == t && c.ws == if t in Replay(log).pending then Replay(log).pending[t] else []
  {
    if log != [] {
      var n := |log| - 1;
      var prefix, r := log[..n], log[n];
      ReplayIsCommitted(prefix);
      if n > 0 { assert prefix[n-1] == log[n-1]; }
      match r {
        case TxnBegin(t) =>
          if t in Replay(prefix).pending {
            PendingWritten(prefix, t);
          }
        case TxnCommit(t) =>
          var ws := Scan(GENESIS, prefix).current.ws;
          assert (Committed(prefix) + [ws])[..|Committed(prefix)|] == Committed(prefix);
        case _ =>
      }
    }
  }

  lemma {:induction false} MaxTxnBounds(log: seq<Rec>)
    ensures WritesUpTo(log, Replay(log).maxTxn)
  {
    if log != [] {
      var n := |log| - 1;
      MaxTxnBounds(log[..n]);
      forall i | 0 <= i < |log| && log[i].PageWrite? ensures log[i].tx <= Replay(log).maxTxn {
        if i < n { assert log[..n][i] == log[i]; }
      }
    }
  }
}
