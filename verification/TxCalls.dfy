/** What the calls of a transaction say about its write set. */
module TxCalls {
  import opened Versions

  /** A call of a transaction that succeeded. */
  datatype Call = Deleted(n: Name) | Written(n: Name, val: Payload, unique: bool)

  /** A map after some calls. */
  function Applied(c: Content, calls: seq<Call>): Content {
    if calls == [] then c
    else
      var before := Applied(c, calls[..|calls|-1]);
      match calls[|calls|-1]
      case Deleted(n) => before - {n}
      case Written(n, val, _) => before[n := val]
  }

  ghost predicate Called(calls: seq<Call>, n: Name) { exists c :: c in calls && c.n == n }

  ghost predicate Removed(calls: seq<Call>, n: Name) { Deleted(n) in calls }

  /** n was written as unique, and not deleted after that. */
  ghost predicate Claims(calls: seq<Call>, n: Name) {
    exists j :: 0 <= j < |calls| && calls[j].Written? && calls[j].n == n && calls[j].unique && Deleted(n) !in calls[j..]
  }

  /** The last call on n deletes it. */
  ghost predicate EndsDeleted(calls: seq<Call>, n: Name) { exists j: nat :: DeletedLast(calls, n, j) }

  ghost predicate DeletedLast(calls: seq<Call>, n: Name, j: nat) {
    j < |calls| && calls[j] == Deleted(n) && forall i :: j < i < |calls| ==> calls[i].n != n
  }

  /** The flags of a buffered write. */
  ghost predicate Flagged(calls: seq<Call>, n: Name, op: WriteOp) {
    (op.del <==> EndsDeleted(calls, n)) && (op.unique <==> Claims(calls, n))
      && (!op.del ==> (op.shadowed <==> Removed(calls, n)))
  }

  /** A write set is what the calls left. */
  ghost predicate Recorded(calls: seq<Call>, ws: Writes) {
    && (forall n :: n in ws <==> Called(calls, n)) && (forall n :: n in ws ==> Flagged(calls, n, ws[n]))
    && forall c: Content :: View(c, ws) == Applied(c, calls)
  }

  lemma {:induction false} NothingRecorded()
    ensures Recorded([], map[])
  {
    forall c: Content ensures View(c, map[]) == c {}
  }

  lemma {:induction false} ClaimsGrow(calls: seq<Call>, c: Call, n: Name)
    ensures Claims(calls + [c], n) <==>
      (c.Written? && c.n == n && c.unique) || (Claims(calls, n) && c != Deleted(n))
    ensures Removed(calls + [c], n) <==> Removed(calls, n) || c == Deleted(n)
    ensures Called(calls + [c], n) <==> Called(calls, n) || c.n == n
  {
    var more := calls + [c];
    if Claims(more, n) {
      var j :| 0 <= j < |more| && more[j].Written? && more[j].n == n && more[j].unique && Deleted(n) !in more[j..];
      if j < |calls| { assert more[j..] == calls[j..] + [c]; }
    }
    if Claims(calls, n) && c != Deleted(n) {
      var j :| 0 <= j < |calls| && calls[j].Written? && calls[j].n == n && calls[j].unique && Deleted(n) !in calls[j..];
      assert more[j] == calls[j] && more[j..] == calls[j..] + [c];
    }
    if c.Written? && c.n == n && c.unique { assert more[|calls|] == c && more[|calls|..] == [c]; }
  }

  lemma {:induction false} EndsGrow(calls: seq<Call>, c: Call, n: Name)
    ensures EndsDeleted(calls + [c], n) <==> c == Deleted(n) || (EndsDeleted(calls, n) && c.n != n)
  {
    var more := calls + [c];
    forall j: nat ensures DeletedLast(more, n, j) <==>
      if j < |calls| then DeletedLast(calls, n, j) && c.n != n else j == |calls| && c == Deleted(n)
    {
      if j < |calls| && DeletedLast(calls, n, j) && c.n != n {
        forall i | j < i < |more| ensures more[i].n != n { if i < |calls| { assert more[i] == calls[i]; } }
      }
      if j < |calls| && DeletedLast(more, n, j) {
        forall i | j < i < |calls| ensures calls[i].n != n { assert more[i] == calls[i]; }
        assert more[|calls|] == c;
      }
    }
    hide DeletedLast;
    if c == Deleted(n) { assert DeletedLast(more, n, |calls|); }
  }

  /** A successful call is recorded by the write that put and Delete buffer. */
  lemma {:induction false} CallRecorded(calls: seq<Call>, ws: Writes, c: Call, op: WriteOp)
    requires Recorded(calls, ws)
    requires c.Deleted? ==> op == WriteOp([], true, false, false)
    requires c.Written? ==> op == WriteOp(c.val, false, c.unique || (c.n in ws && ws[c.n].unique),
      c.n in ws && (ws[c.n].shadowed || ws[c.n].del))
    ensures Recorded(calls + [c], ws[c.n := op])
  {
    hide View, Applied;
    var more, ws' := calls + [c], ws[c.n := op];
    forall n ensures n in ws' <==> Called(more, n) { ClaimsGrow(calls, c, n); }
    forall n | n in ws' ensures Flagged(more, n, ws'[n]) { FlagsGrow(calls, ws, c, op, n); }
    forall b: Content ensures View(b, ws') == Applied(b, more) {
      ViewStep(b, ws, c.n, op);
      AppliedGrows(b, calls, c);
    }
  }

  lemma {:induction false} AppliedGrows(b: Content, calls: seq<Call>, c: Call)
    ensures Applied(b, calls + [c]) == if c.Deleted? then Applied(b, calls) - {c.n} else Applied(b, calls)[c.n := c.val]
  {
    assert (calls + [c])[..|calls|] == calls;
  }

  lemma {:induction false} FlagsGrow(calls: seq<Call>, ws: Writes, c: Call, op: WriteOp, n: Name)
    requires (forall m :: m in ws <==> Called(calls, m)) && (n in ws ==> Flagged(calls, n, ws[n]))
    requires c.Deleted? ==> op == WriteOp([], true, false, false)
    requires c.Written? ==> op == WriteOp(c.val, false, c.unique || (c.n in ws && ws[c.n].unique),
      c.n in ws && (ws[c.n].shadowed || ws[c.n].del))
    requires n in ws[c.n := op]
    ensures Flagged(calls + [c], n, ws[c.n := op][n])
  {
    ClaimsGrow(calls, c, n);
    EndsGrow(calls, c, n);
    if n !in ws { NeverCalled(calls, n); } else { FlagsFit(calls, n); }
    hide Claims, EndsDeleted;
  }

  lemma {:induction false} NeverCalled(calls: seq<Call>, n: Name)
    requires !Called(calls, n)
    ensures !Claims(calls, n) && !Removed(calls, n) && !EndsDeleted(calls, n)
  {}

  lemma {:induction false} FlagsFit(calls: seq<Call>, n: Name)
    ensures EndsDeleted(calls, n) ==> Removed(calls, n) && !Claims(calls, n)
  {}

  /** Every unique write found its key absent, as InsertUnique makes sure. */
  ghost predicate Polite(calls: seq<Call>, c: Content) {
    forall j :: 0 <= j < |calls| && calls[j].Written? && calls[j].unique ==> calls[j].n !in Applied(c, calls[..j])
  }

  lemma {:induction false} StaysThere(calls: seq<Call>, c: Content, n: Name)
    requires n in c && Deleted(n) !in calls
    ensures n in Applied(c, calls)
  {
    if calls != [] {
      var k := |calls| - 1;
      assert calls == calls[..k] + [calls[k]];
      StaysThere(calls[..k], c, n);
    }
  }

  /** A key that was there from the start and claimed all the same had been deleted before. */
  lemma {:induction false} PoliteRemoves(calls: seq<Call>, c: Content, n: Name)
    requires Polite(calls, c) && Claims(calls, n) && n in c
    ensures Removed(calls, n)
  {
    var j :| 0 <= j < |calls| && calls[j].Written? && calls[j].n == n && calls[j].unique && Deleted(n) !in calls[j..];
    if !Removed(calls, n) { StaysThere(calls[..j], c, n); }
  }

  /** Only a unique write of a key that is there is impolite. */
  lemma {:induction false} PoliteGrows(calls: seq<Call>, c: Content, call: Call)
    requires Polite(calls, c)
    ensures Polite(calls + [call], c) <==> (call.Written? && call.unique ==> call.n !in Applied(c, calls))
  {
    hide Applied;
    var more := calls + [call];
    assert forall j :: 0 <= j < |calls| ==> more[..j] == calls[..j];
    assert more[..|calls|] == calls && more[|calls|] == call;
  }

  lemma {:induction false} PolitePrefix(calls: seq<Call>, c: Content, n: nat)
    requires Polite(calls, c) && n <= |calls|
    ensures Polite(calls[..n], c)
  {
    hide Applied;
    assert forall j :: 0 <= j < n ==> calls[..n][..j] == calls[..j];
  }

  /** What a transaction sees is what its calls made of its snapshot. */
  lemma {:induction false} SeesCalls(calls: seq<Call>, ws: Writes, c: Content)
    requires Recorded(calls, ws)
    ensures View(c, ws) == Applied(c, calls)
  {}
}
