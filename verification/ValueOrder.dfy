/**
 * The order of values as its documentation gives it: the families of kinds in a
 * row, and inside a family the first difference.
 */
module ValueOrder {
  import opened Bytes
  import opened Float64
  import opened NumberKey
  import opened Values

  // ---- kinds ------------------------------------------------------------------------------

  /** Null, booleans, numbers, strings, bytes, dates, instants, durations, lists, maps, nodes, edges, paths. */
  predicate KindBelow(a: Value, b: Value) {
    match a
    case Null => !b.Null?
    case Bool(_) => !b.Null? && !b.Bool?
    case Int(_) => !b.Null? && !b.Bool? && !b.Int? && !b.Float?
    case Float(_) => !b.Null? && !b.Bool? && !b.Int? && !b.Float?
    case Str(_) => b.Raw? || b.Date? || b.DateTime? || b.Duration? || b.List? || b.Map? || b.Node? || b.Edge? || b.Path?
    case Raw(_) => b.Date? || b.DateTime? || b.Duration? || b.List? || b.Map? || b.Node? || b.Edge? || b.Path?
    case Date(_) => b.DateTime? || b.Duration? || b.List? || b.Map? || b.Node? || b.Edge? || b.Path?
    case DateTime(_, _) => b.Duration? || b.List? || b.Map? || b.Node? || b.Edge? || b.Path?
    case Duration(_, _, _) => b.List? || b.Map? || b.Node? || b.Edge? || b.Path?
    case List(_) => b.Map? || b.Node? || b.Edge? || b.Path?
    case Map(_) => b.Node? || b.Edge? || b.Path?
    case Node(_) => b.Edge? || b.Path?
    case Edge(_) => b.Path?
    case Path(_, _) => false
  }

  lemma {:induction false} KindsInOrder(a: Value, b: Value)
    ensures KindBelow(a, b) ==> CompareValues(a, b) < 0 && CompareValues(b, a) > 0
    ensures KindBelow(a, b) ==> Encode(a)[0] < Encode(b)[0]
  {}

  // ---- inside a kind ----------------------------------------------------------------------

  /** Up to k there is no difference, and there s is smaller or ends. */
  ghost predicate DifferAt(s: seq<int>, t: seq<int>, k: nat) {
    && k <= |s| && k <= |t| && s[..k] == t[..k]
    && (k == |s| < |t| || (k < |s| && k < |t| && s[k] < t[k]))
  }

  /** At the first difference s is smaller, or s is a proper prefix. */
  ghost predicate Below(s: seq<int>, t: seq<int>) { exists k: nat :: DifferAt(s, t, k) }

  lemma {:induction false} DifferStep(s: seq<int>, t: seq<int>, k: nat)
    requires s != [] && t != []
    ensures DifferAt(s, t, k + 1) <==> s[0] == t[0] && DifferAt(s[1..], t[1..], k)
  {
    if k < |s| && k < |t| {
      assert s[..k+1] == [s[0]] + s[1..][..k] && t[..k+1] == [t[0]] + t[1..][..k];
      assert s[1..][..k] == s[..k+1][1..] && t[1..][..k] == t[..k+1][1..];
    }
  }

  lemma {:induction false} BelowStep(s: seq<int>, t: seq<int>)
    ensures Below(s, t) <==> t != [] && (s == [] || s[0] < t[0] || (s[0] == t[0] && Below(s[1..], t[1..])))
  {
    assert DifferAt(s, t, 0) <==> t != [] && (s == [] || s[0] < t[0]);
    if s != [] && t != [] {
      hide DifferAt;
      if k: nat :| DifferAt(s, t, k) { if k > 0 { DifferStep(s, t, k - 1); } }
      if k: nat :| DifferAt(s[1..], t[1..], k) { DifferStep(s, t, k); }
    }
  }

  lemma {:induction false} LessBelow(s: Key, t: Key)
    ensures Less(s, t) <==> Below(s, t)
    decreases |s|
  {
    BelowStep(s, t);
    if s != [] && t != [] { LessBelow(s[1..], t[1..]); }
  }

  /** The nodes and edges of a path in the order in which it is walked. */
  function Walk(ns: seq<Bits>, es: seq<Bits>): seq<int>
    decreases |ns|
  {
    if ns == [] then [] else if es == [] then [ns[0]] else [ns[0], es[0]] + Walk(ns[1..], es[1..])
  }

  lemma {:induction false} PathsBelow(an: seq<Bits>, ae: seq<Bits>, bn: seq<Bits>, be: seq<Bits>)
    requires WellFormedPath(an, ae) && WellFormedPath(bn, be)
    ensures ComparePaths(an, ae, bn, be) < 0 <==> Below(Walk(an, ae), Walk(bn, be))
    decreases |an|
  {
    var s, t := Walk(an, ae), Walk(bn, be);
    hide Below;
    BelowStep(s, t);
    if an != [] && bn != [] && an[0] == bn[0] {
      BelowStep(s[1..], t[1..]);
      if ae != [] && be != [] {
        PathsBelow(an[1..], ae[1..], bn[1..], be[1..]);
        assert s[1..][1..] == Walk(an[1..], ae[1..]) && t[1..][1..] == Walk(bn[1..], be[1..]);
      }
    }
  }

  /** The lists first differ at k: the elements before it compare equal. */
  ghost predicate ListsDiffer(a: seq<Value>, b: seq<Value>, k: nat) {
    && k <= |a| && k <= |b| && (forall i :: 0 <= i < k ==> CompareValues(a[i], b[i]) == 0)
    && (k == |a| < |b| || (k < |a| && k < |b| && CompareValues(a[k], b[k]) < 0))
  }

  ghost predicate ListBelow(a: seq<Value>, b: seq<Value>) { exists k: nat :: ListsDiffer(a, b, k) }

  lemma {:induction false} ListsStep(a: seq<Value>, b: seq<Value>, k: nat)
    requires a != [] && b != []
    ensures ListsDiffer(a, b, k + 1) <==> CompareValues(a[0], b[0]) == 0 && ListsDiffer(a[1..], b[1..], k)
  {
    hide CompareValues;
    if ListsDiffer(a[1..], b[1..], k) && CompareValues(a[0], b[0]) == 0 {
      forall i | 0 <= i < k + 1 ensures CompareValues(a[i], b[i]) == 0 {
        if i > 0 { assert a[1..][i-1] == a[i] && b[1..][i-1] == b[i]; }
      }
    }
  }

  lemma {:induction false} ListsBelow(a: seq<Value>, b: seq<Value>)
    ensures CompareLists(a, b) < 0 <==> ListBelow(a, b)
    decreases |a|
  {
    hide CompareValues;
    if a == [] || b == [] {
      assert ListsDiffer(a, b, 0) <==> |a| < |b|;
    } else {
      ListsBelow(a[1..], b[1..]);
      assert ListsDiffer(a, b, 0) <==> CompareValues(a[0], b[0]) < 0;
      hide ListsDiffer;
      if k: nat :| ListsDiffer(a, b, k) { if k > 0 { ListsStep(a, b, k - 1); } }
      if k: nat :| ListsDiffer(a[1..], b[1..], k) { ListsStep(a, b, k); }
    }
  }

  ghost predicate EntryBelow(a: Entry, b: Entry) {
    Below(a.key, b.key) || (a.key == b.key && CompareValues(a.val, b.val) < 0)
  }

  predicate EntrySame(a: Entry, b: Entry) { a.key == b.key && CompareValues(a.val, b.val) == 0 }

  ghost predicate MapsDiffer(a: seq<Entry>, b: seq<Entry>, k: nat) {
    && k <= |a| && k <= |b| && (forall i :: 0 <= i < k ==> EntrySame(a[i], b[i]))
    && (k == |a| < |b| || (k < |a| && k < |b| && EntryBelow(a[k], b[k])))
  }

  /** At the first difference the key is smaller, or the key is the same and the value smaller. */
  ghost predicate MapBelow(a: seq<Entry>, b: seq<Entry>) { exists k: nat :: MapsDiffer(a, b, k) }

  lemma {:induction false} MapsStep(a: seq<Entry>, b: seq<Entry>, k: nat)
    requires a != [] && b != []
    ensures MapsDiffer(a, b, k + 1) <==> EntrySame(a[0], b[0]) && MapsDiffer(a[1..], b[1..], k)
  {
    hide EntrySame, EntryBelow;
    if MapsDiffer(a[1..], b[1..], k) && EntrySame(a[0], b[0]) {
      forall i | 0 <= i < k + 1 ensures EntrySame(a[i], b[i]) {
        if i > 0 { assert a[1..][i-1] == a[i] && b[1..][i-1] == b[i]; }
      }
    }
  }

  lemma {:induction false} EntriesCompare(a: Entry, b: Entry, c: int)
    ensures Then(Compare(a.key, b.key), Then(CompareValues(a.val, b.val), c)) < 0 <==>
      EntryBelow(a, b) || (EntrySame(a, b) && c < 0)
  {
    hide CompareValues, Below, Less;
    LessBelow(a.key, b.key);
    LessBelow(b.key, a.key);
    LessTotal(a.key, b.key);
    LessIrreflexive(a.key);
    if Less(a.key, b.key) { LessAsymmetric(a.key, b.key); }
  }

  lemma {:induction false} MapsBelow(a: seq<Entry>, b: seq<Entry>)
    ensures CompareMaps(a, b) < 0 <==> MapBelow(a, b)
    decreases |a|
  {
    hide CompareValues, EntryBelow, EntrySame, Compare, Then;
    if a == [] || b == [] {
      assert MapsDiffer(a, b, 0) <==> |a| < |b|;
    } else {
      MapsBelow(a[1..], b[1..]);
      EntriesCompare(a[0], b[0], CompareMaps(a[1..], b[1..]));
      assert MapsDiffer(a, b, 0) <==> EntryBelow(a[0], b[0]);
      hide MapsDiffer;
      if k: nat :| MapsDiffer(a, b, k) { if k > 0 { MapsStep(a, b, k - 1); } }
      if k: nat :| MapsDiffer(a[1..], b[1..], k) { MapsStep(a, b, k); }
    }
  }

  /** NaN is above every other number; the rest are ordered by their exact values. */
  ghost predicate NumberBelow(a: Value, b: Value)
    requires (a.Int? || a.Float?) && (b.Int? || b.Float?)
  {
    && !(a.Float? && IsNaN(a.f))
    && ((b.Float? && IsNaN(b.f)) ||
        (if a.Int? then a.i * One() else Exact(a.f)) < (if b.Int? then b.i * One() else Exact(b.f)))
  }

  lemma {:induction false} NumbersBelow(a: Value, b: Value)
    requires (a.Int? || a.Float?) && (b.Int? || b.Float?)
    ensures CompareNumber(NumberOf(a), NumberOf(b)) < 0 <==> NumberBelow(a, b)
  {
    hide One, Exact, InRange, IsInf;
    if !NotANumber(NumberOf(a)) && !NotANumber(NumberOf(b)) {
      hide CompareIntFloat;
      CompareAmounts(NumberOf(a), NumberOf(b));
    }
  }

  /** An unspecified offset comes before any recorded one. */
  predicate ZoneBelow(a: Zone, b: Zone) {
    b.Offset? && (a.NoZone? || a.seconds < b.seconds)
  }

  /** a comes before b. */
  ghost predicate Precedes(a: Value, b: Value) {
    KindBelow(a, b) ||
    match (a, b)
    case (Bool(x), Bool(y)) => !x && y
    case (Int(_), Int(_)) => NumberBelow(a, b)
    case (Int(_), Float(_)) => NumberBelow(a, b)
    case (Float(_), Int(_)) => NumberBelow(a, b)
    case (Float(_), Float(_)) => NumberBelow(a, b)
    case (Str(s), Str(t)) => Below(s, t)
    case (Raw(s), Raw(t)) => Below(s, t)
    case (Date(m), Date(n)) => m < n
    case (DateTime(m, y), DateTime(n, z)) => m < n || (m == n && ZoneBelow(y, z))
    case (Duration(m, d, x), Duration(n, e, y)) => m < n || (m == n && (d < e || (d == e && x < y)))
    case (List(vs), List(ws)) => ListBelow(vs, ws)
    case (Map(es), Map(fs)) => MapBelow(es, fs)
    case (Node(m), Node(n)) => m < n
    case (Edge(m), Edge(n)) => m < n
    case (Path(an, ae), Path(bn, be)) => Below(Walk(an, ae), Walk(bn, be))
    case _ => false
  }

  lemma {:induction false} LessThan(a: Value, b: Value)
    requires WellFormed(a) && WellFormed(b)
    ensures CompareValues(a, b) < 0 <==> Precedes(a, b)
  {
    hide Below, ListBelow, MapBelow, NumberBelow, CompareNumber, ComparePaths, CompareLists, CompareMaps, Walk, Less;
    KindsInOrder(a, b);
    KindsInOrder(b, a);
    match (a, b) {
      case (Int(_), Int(_)) => NumbersBelow(a, b);
      case (Int(_), Float(_)) => NumbersBelow(a, b);
      case (Float(_), Int(_)) => NumbersBelow(a, b);
      case (Float(_), Float(_)) => NumbersBelow(a, b);
      case (Str(s), Str(t)) => LessBelow(s, t);
      case (Raw(s), Raw(t)) => LessBelow(s, t);
      case (List(vs), List(ws)) => ListsBelow(vs, ws);
      case (Map(es), Map(fs)) => MapsBelow(es, fs);
      case (Path(an, ae), Path(bn, be)) => PathsBelow(an, ae, bn, be);
      case _ =>
    }
  }

  /** Compare is the documented order, in both directions; values of which neither comes first compare equal. */
  lemma {:induction false} CompareMeans(a: Value, b: Value)
    requires WellFormed(a) && WellFormed(b)
    ensures CompareValues(a, b) < 0 <==> Precedes(a, b)
    ensures CompareValues(a, b) > 0 <==> Precedes(b, a)
  {
    hide CompareValues, Precedes, WellFormed;
    LessThan(a, b);
    LessThan(b, a);
    CompareIsOrder(b, a, a);
  }
}
