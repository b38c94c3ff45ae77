/**
 * What the parser does with any tokens, and from that which expressions read back.
 *
 * The parser drops no token but parentheses. The m-th other token therefore plays
 * the same part in every text of an expression, and the tests that the parser makes
 * right behind it, for a comprehension, for DISTINCT and for a taken keyword, can
 * be said of the text.
 */
module ExpressionReads {
  import opened Options
  import opened Expressions
  import opened ExpressionRoundTrip

  predicate Grouping(t: Token) { t == LParen || t == RParen }

  function Strip(ts: seq<Token>): seq<Token> {
    if ts == [] then [] else if Grouping(ts[0]) then Strip(ts[1..]) else [ts[0]] + Strip(ts[1..])
  }

  /** How many tokens other than parentheses there are. */
  function Weight(ts: seq<Token>): nat { |Strip(ts)| }

  lemma {:induction false} WeightJoin(a: seq<Token>, b: seq<Token>)
    ensures Weight(a + b) == Weight(a) + Weight(b)
  {
    if a == [] { assert a + b == b; }
    else {
      assert (a + b)[1..] == a[1..] + b;
      WeightJoin(a[1..], b);
    }
  }

  /** The tokens from the m-th one on that is no parenthesis. */
  function From(ts: seq<Token>, m: nat): seq<Token> {
    if ts == [] then []
    else if Grouping(ts[0]) then From(ts[1..], m)
    else if m == 0 then ts
    else From(ts[1..], m - 1)
  }

  lemma {:induction false} FromShift(a: seq<Token>, b: seq<Token>, m: nat)
    ensures From(a + b, Weight(a) + m) == From(b, m)
  {
    if a == [] { assert a + b == b; }
    else {
      assert (a + b)[1..] == a[1..] + b;
      FromShift(a[1..], b, m);
    }
  }

  // ---- how much text an expression takes --------------------------------------------------

  function Count(o: bool): nat { if o then 1 else 0 }

  function Width(e: Expr): nat
    decreases e
  {
    match e
    case Unary(_, x) => 1 + Width(x)
    case Binary(op, l, r) => Width(l) + |OpTokens(op)| + Width(r)
    case Pred(x, neg, typ) => Width(x) + |PredTail(neg, typ)|
    case Property(x, _) => Width(x) + 2
    case Index(x, i) => Width(x) + 1 + Width(i) + 1
    case Slice(x, lo, hi) => Width(x) + 1 + Width(lo) + 1 + (if hi.Some? then Width(hi.value) else 0) + 1
    case List(es) => 1 + WidthAll(es) + 1
    case Comp(_, src, cond, proj) =>
      3 + Width(src) + (if cond.Some? then 1 + Width(cond.value) else 0) +
        (if proj.Some? then 1 + Width(proj.value) else 0) + 1
    case Call(_, distinct, star, args) => 1 + Count(distinct) + if star then 1 else WidthAll(args)
    case _ => 1
  }

  function WidthAll(es: seq<Expr>): nat
    decreases es
  { if es == [] then 0 else if |es| == 1 then Width(es[0]) else Width(es[0]) + 1 + WidthAll(es[1..]) }

  // ---- what the parser saw in a text ------------------------------------------------------

  /** The tests behind the tokens of e, which start at the m-th token of ts. */
  predicate Seen(e: Expr, m: nat, ts: seq<Token>)
    decreases e
  {
    match e
    case Unary(_, x) => Seen(x, m + 1, ts)
    case Binary(op, l, r) => Seen(l, m, ts) && Seen(r, m + Width(l) + |OpTokens(op)|, ts)
    case Pred(x, _, _) => Seen(x, m, ts)
    case Property(x, _) => Seen(x, m, ts)
    case Index(x, i) => Seen(x, m, ts) && Seen(i, m + Width(x) + 1, ts)
    case Slice(x, lo, hi) =>
      && Seen(x, m, ts) && Seen(lo, m + Width(x) + 1, ts)
      && (hi.Some? ==> Seen(hi.value, m + Width(x) + 1 + Width(lo) + 1, ts))
    case List(es) => !LikeComp(Rest(From(ts, m))) && SeenAll(es, m + 1, ts)
    case Comp(_, src, cond, proj) =>
      && Seen(src, m + 3, ts) && (cond.Some? ==> Seen(cond.value, m + 3 + Width(src) + 1, ts))
      && (proj.Some? ==>
        Seen(proj.value, m + 3 + Width(src) + (if cond.Some? then 1 + Width(cond.value) else 0) + 1, ts))
    case Call(f, distinct, star, args) =>
      && (f.Reserved? && f.k in TAKEN ==> Cur(From(ts, m)) != Kw(f.k)) && (star ==> args == [])
      && (!distinct ==> Look(Rest(From(ts, m))) != Kw(KwDistinct)) && SeenAll(args, m + 1 + Count(distinct), ts)
    case _ => true
  }

  function Rest(ts: seq<Token>): seq<Token> { if ts == [] then [] else ts[1..] }

  predicate SeenAll(es: seq<Expr>, m: nat, ts: seq<Token>)
    decreases es
  { es == [] || (Seen(es[0], m, ts) && SeenAll(es[1..], m + Width(es[0]) + 1, ts)) }

  lemma {:induction false} SeenShift(e: Expr, a: seq<Token>, b: seq<Token>, m: nat)
    ensures Seen(e, Weight(a) + m, a + b) <==> Seen(e, m, b)
    decreases e, 1
  {
    hide Weight, Width, OpTokens, From, LikeComp, SeenAll;
    match e {
      case Unary(_, x) => SeenShift(x, a, b, m + 1);
      case Binary(op, l, r) =>
        SeenShift(l, a, b, m);
        SeenShift(r, a, b, m + Width(l) + |OpTokens(op)|);
      case Pred(x, _, _) => SeenShift(x, a, b, m);
      case Property(x, _) => SeenShift(x, a, b, m);
      case Index(x, i) =>
        SeenShift(x, a, b, m);
        SeenShift(i, a, b, m + Width(x) + 1);
      case Slice(x, lo, hi) =>
        SeenShift(x, a, b, m);
        SeenShift(lo, a, b, m + Width(x) + 1);
        if hi.Some? { SeenShift(hi.value, a, b, m + Width(x) + 1 + Width(lo) + 1); }
      case List(es) =>
        FromShift(a, b, m);
        SeenAllShift(es, a, b, m + 1);
      case Comp(_, src, cond, proj) =>
        SeenShift(src, a, b, m + 3);
        if cond.Some? { SeenShift(cond.value, a, b, m + 3 + Width(src) + 1); }
        if proj.Some? {
          SeenShift(proj.value, a, b, m + 3 + Width(src) + (if cond.Some? then 1 + Width(cond.value) else 0) + 1);
        }
      case Call(f, distinct, star, args) =>
        FromShift(a, b, m);
        SeenAllShift(args, a, b, m + 1 + Count(distinct));
      case _ =>
    }
  }

  lemma {:induction false} SeenAllShift(es: seq<Expr>, a: seq<Token>, b: seq<Token>, m: nat)
    ensures SeenAll(es, Weight(a) + m, a + b) <==> SeenAll(es, m, b)
    decreases es, 0
  {
    hide Weight, Width, Seen;
    if es != [] {
      SeenShift(es[0], a, b, m);
      SeenAllShift(es[1..], a, b, m + Width(es[0]) + 1);
    }
  }

  // ---- every parsing function -------------------------------------------------------------

  /** The tokens u that were read are a text of e. */
  predicate Reads(ts: seq<Token>, u: seq<Token>, e: Expr, rest: seq<Token>) {
    ts == u + rest && Weight(u) == Width(e) && Seen(e, 0, ts)
  }

  /** The tokens a before ts are a text of left, and with u they are one of e. */
  predicate Extends(a: seq<Token>, ts: seq<Token>, u: seq<Token>, e: Expr, rest: seq<Token>) {
    ts == u + rest && Weight(a + u) == Width(e) && Seen(e, 0, a + ts)
  }

  predicate TextOf(a: seq<Token>, left: Expr, ts: seq<Token>) { Weight(a) == Width(left) && Seen(left, 0, a + ts) }

  lemma {:induction false} ExtendsNothing(a: seq<Token>, e: Expr, ts: seq<Token>)
    requires TextOf(a, e, ts)
    ensures Extends(a, ts, [], e, ts)
  {
    assert a + [] == a && [] + ts == ts;
  }

  lemma {:induction false} ExtendsTwice(a: seq<Token>, ts: seq<Token>, u: seq<Token>, e: Expr, mid: seq<Token>,
                                        v: seq<Token>, e': Expr, rest: seq<Token>)
    requires Extends(a, ts, u, e, mid) && Extends(a + u, mid, v, e', rest)
    ensures Extends(a, ts, u + v, e', rest)
  {
    Joined(a, u, v);
    Joined(a, u, mid);
    Joined(u, v, rest);
  }

  lemma {:induction false} PrattReads(ts: seq<Token>, f: nat) returns (u: seq<Token>)
    requires Pratt(ts, f).Ok?
    ensures Reads(ts, u, Pratt(ts, f).e, Pratt(ts, f).rest)
    decreases |ts|, 5
  {
    hide Prefix, Loop, Weight, Width, Seen;
    var r := Prefix(ts);
    var a := PrefixReads(ts);
    var v := LoopReads(a, r.e, false, r.rest, f);
    u := a + v;
    Joined(a, v, Pratt(ts, f).rest);
  }

  lemma {:induction false} LoopReads(a: seq<Token>, left: Expr, c: bool, ts: seq<Token>, f: nat) returns (u: seq<Token>)
    requires TextOf(a, left, ts) && Loop(left, c, ts, f).Ok?
    ensures var r := Loop(left, c, ts, f); Extends(a, ts, u, r.e, r.rest)
    decreases |ts|, 1
  {
    var p := LedPrec(Cur(ts));
    if p == 0 || p < f {
      u := [];
      ExtendsNothing(a, left, ts);
    } else {
      var q := ApplyLed(left, ts);
      hide ApplyLed, LedPrec, Weight, Width, Seen;
      var v := ApplyLedReads(a, left, ts);
      Joined(a, v, q.rest);
      var w := LoopReads(a + v, q.e, p == 5, q.rest, f);
      u := v + w;
      ExtendsTwice(a, ts, v, q.e, q.rest, w, Loop(left, c, ts, f).e, Loop(left, c, ts, f).rest);
    }
  }

  /** An operand that follows a text a. */
  lemma {:induction false} Operand(a: seq<Token>, x: Expr, u: seq<Token>, ts: seq<Token>, rest: seq<Token>)
    requires Reads(ts, u, x, rest)
    ensures Seen(x, Weight(a), a + ts) && Weight(a + u) == Weight(a) + Width(x)
  {
    SeenShift(x, a, ts, 0);
    WeightJoin(a, u);
  }

  lemma {:induction false} PlainWeight(a: seq<Token>)
    requires forall i :: 0 <= i < |a| ==> !Grouping(a[i])
    ensures Weight(a) == |a|
  {
    if a != [] { PlainWeight(a[1..]); }
  }

  lemma {:induction false} ApplyLedReads(a: seq<Token>, left: Expr, ts: seq<Token>) returns (u: seq<Token>)
    requires TextOf(a, left, ts) && LedPrec(Cur(ts)) > 0 && ApplyLed(left, ts).Ok?
    ensures var r := ApplyLed(left, ts); Extends(a, ts, u, r.e, r.rest)
    decreases |ts|, 0
  {
    hide Pratt, ParsePred, Weight, Width, Seen, LedPrec;
    var t, r := ts[0], ApplyLed(left, ts);
    if t == Kw(KwIs) {
      u := PredReads(a, left, ts);
    } else {
      var n := if t == Kw(KwStarts) || t == Kw(KwEnds) then 2 else 1;
      var ops, more := ts[..n], ts[n..];
      assert ts == ops + more;
      LedLength(t);
      PlainWeight(ops);
      var v := PrattReads(more, if LedPrec(t) == 9 then 9 else LedPrec(t) + 1);
      u := ops + v;
      BinaryReads(a, left, LedOp(t), ops, r.e.right, v, more, r.rest);
    }
  }

  lemma {:induction false} LedLength(t: Token)
    requires LedPrec(t) > 0 && t != Kw(KwIs)
    ensures |OpTokens(LedOp(t))| == (if t == Kw(KwStarts) || t == Kw(KwEnds) then 2 else 1) && !Grouping(t)
  {}

  lemma {:induction false} BinaryReads(a: seq<Token>, left: Expr, op: BinaryOp, ops: seq<Token>, right: Expr,
                                       v: seq<Token>, more: seq<Token>, rest: seq<Token>)
    requires Weight(a) == Width(left) && Seen(left, 0, a + (ops + more)) && Weight(ops) == |OpTokens(op)|
      && Reads(more, v, right, rest)
    ensures Extends(a, ops + more, ops + v, Binary(op, left, right), rest)
  {
    WeightJoin(a, ops);
    Operand(a + ops, right, v, more, rest);
    Joined(a, ops, v);
    Joined(a, ops, more);
    Joined(ops, v, rest);
    hide Weight;
  }

  lemma {:induction false} PredReads(a: seq<Token>, left: Expr, ts: seq<Token>) returns (u: seq<Token>)
    requires TextOf(a, left, ts) && ts != [] && ts[0] == Kw(KwIs) && ParsePred(left, ts[1..]).Ok?
    ensures var r := ParsePred(left, ts[1..]); Extends(a, ts, u, r.e, r.rest)
  {
    var r := ParsePred(left, ts[1..]);
    u := PredTokens(left, ts);
    hide ParsePred, PredTail, Weight;
    WeightJoin(a, u);
    PlainWeight(u);
  }

  lemma {:induction false} PredTokens(left: Expr, ts: seq<Token>) returns (u: seq<Token>)
    requires ts != [] && ts[0] == Kw(KwIs) && ParsePred(left, ts[1..]).Ok?
    ensures var r := ParsePred(left, ts[1..]);
      && r.e.Pred? && r.e.x == left && ts == u + r.rest && |u| == |PredTail(r.e.negated, r.e.typ)|
      && forall i :: 0 <= i < |u| ==> !Grouping(u[i])
  {
    var r := ParsePred(left, ts[1..]);
    var n := |PredTail(r.e.negated, r.e.typ)|;
    u := ts[..n];
    assert ts == u + ts[n..] && r.rest == ts[n..];
  }

  lemma {:induction false} PrefixReads(ts: seq<Token>) returns (u: seq<Token>)
    requires Prefix(ts).Ok?
    ensures Reads(ts, u, Prefix(ts).e, Prefix(ts).rest)
    decreases |ts|, 4
  {
    hide Pratt, Postfix, Weight, Width, Seen;
    var t := Cur(ts);
    if t == Kw(KwNot) || t == Plus || t == Minus {
      var more, f := ts[1..], if t == Kw(KwNot) then 5 else 9;
      var v := PrattReads(more, f);
      u := [t] + v;
      assert ts == [t] + more;
      UnaryReads(t, Prefix(ts).e, v, more, Prefix(ts).rest);
    } else {
      u := PostfixReads(ts);
    }
  }

  lemma {:induction false} UnaryReads(t: Token, e: Expr, v: seq<Token>, ts: seq<Token>, rest: seq<Token>)
    requires e.Unary? && !Grouping(t) && Reads(ts, v, e.x, rest)
    ensures Reads([t] + ts, [t] + v, e, rest)
  {
    PlainWeight([t]);
    Operand([t], e.x, v, ts, rest);
    Joined([t], v, rest);
    hide Weight;
  }

  lemma {:induction false} PostfixReads(ts: seq<Token>) returns (u: seq<Token>)
    requires Postfix(ts).Ok? && Cur(ts) != Kw(KwNot)
    ensures Reads(ts, u, Postfix(ts).e, Postfix(ts).rest)
    decreases |ts|, 3
  {
    hide Primary, PostLoop, Weight, Width, Seen;
    var r := Primary(ts);
    var a := PrimaryReads(ts);
    var v := PostLoopReads(a, r.e, r.rest);
    u := a + v;
    Joined(a, v, Postfix(ts).rest);
  }

  lemma {:induction false} PostLoopReads(a: seq<Token>, e: Expr, ts: seq<Token>) returns (u: seq<Token>)
    requires TextOf(a, e, ts) && PostLoop(e, ts).Ok?
    ensures var r := PostLoop(e, ts); Extends(a, ts, u, r.e, r.rest)
    decreases |ts|, 1
  {
    var r := PostLoop(e, ts);
    if Cur(ts) == Dot {
      var v, more := ts[..2], ts[2..];
      assert ts == v + more;
      DotReads(a, e, ts);
      hide Weight, Width, Seen;
      Joined(a, v, more);
      var w := PostLoopReads(a + v, Property(e, NameOf(Look(ts))), more);
      u := v + w;
      ExtendsTwice(a, ts, v, Property(e, NameOf(Look(ts))), more, w, r.e, r.rest);
    } else if Cur(ts) == LBracket {
      var q := PostfixIndex(e, ts);
      hide PostfixIndex, Weight, Width, Seen;
      var v := IndexReads(a, e, ts);
      Joined(a, v, q.rest);
      var w := PostLoopReads(a + v, q.e, q.rest);
      u := v + w;
      ExtendsTwice(a, ts, v, q.e, q.rest, w, r.e, r.rest);
    } else {
      u := [];
      ExtendsNothing(a, e, ts);
    }
  }

  lemma {:induction false} DotReads(a: seq<Token>, e: Expr, ts: seq<Token>)
    requires TextOf(a, e, ts) && |ts| >= 2 && ts[0] == Dot && IsName(ts[1])
    ensures Extends(a, ts, ts[..2], Property(e, NameOf(ts[1])), ts[2..])
  {
    assert ts == ts[..2] + ts[2..];
    PlainWeight(ts[..2]);
    WeightJoin(a, ts[..2]);
    hide Weight;
  }

  lemma {:induction false} IndexReads(a: seq<Token>, e: Expr, ts: seq<Token>) returns (u: seq<Token>)
    requires TextOf(a, e, ts) && ts != [] && ts[0] == LBracket && PostfixIndex(e, ts).Ok?
    ensures var r := PostfixIndex(e, ts); Extends(a, ts, u, r.e, r.rest)
    decreases |ts|, 0
  {
    var r, low := PostfixIndex(e, ts), Pratt(ts[1..], 1);
    var v := PrattReads(ts[1..], 1);
    hide Pratt, Weight, Width, Seen;
    var b := [LBracket] + v;
    assert ts == [LBracket] + ts[1..];
    Joined([LBracket], v, low.rest);
    BracketReads(a, e, low.e, v, ts[1..], low.rest);
    if Cur(low.rest) == DotDot {
      var s := low.rest[1..];
      assert low.rest == [DotDot] + s;
      var w := SliceReads(a, e, low.e, b, ts, s);
      u := b + ([DotDot] + w);
      Joined(b, [DotDot] + w, r.rest);
      Joined([DotDot], w, r.rest);
    } else {
      u := b + [RBracket];
      assert low.rest == [RBracket] + r.rest;
      Joined(b, [RBracket], r.rest);
      Joined(a, b, [RBracket]);
      WeightJoin(a + b, [RBracket]);
      PlainWeight([RBracket]);
      IndexSeen(e, low.e, a + ts);
    }
  }

  lemma {:induction false} IndexSeen(e: Expr, i: Expr, ts: seq<Token>)
    requires Seen(e, 0, ts) && Seen(i, Width(e) + 1, ts)
    ensures Seen(Index(e, i), 0, ts) && Width(Index(e, i)) == Width(e) + 1 + Width(i) + 1
  {}

  /** After the bracket and the first bound. */
  lemma {:induction false} BracketReads(a: seq<Token>, e: Expr, low: Expr, v: seq<Token>, ts: seq<Token>,
                                        rest: seq<Token>)
    requires TextOf(a, e, [LBracket] + ts) && Reads(ts, v, low, rest)
    ensures Weight(a + ([LBracket] + v)) == Width(e) + 1 + Width(low) && Seen(low, Width(e) + 1, a + ([LBracket] + ts))
  {
    WeightJoin(a, [LBracket]);
    PlainWeight([LBracket]);
    Operand(a + [LBracket], low, v, ts, rest);
    Joined(a, [LBracket], v);
    Joined(a, [LBracket], ts);
    hide Weight;
  }

  lemma {:induction false} SliceReads(a: seq<Token>, e: Expr, low: Expr, b: seq<Token>, ts: seq<Token>,
                                      s: seq<Token>)
    returns (w: seq<Token>)
    requires TextOf(a, e, ts) && ts == b + ([DotDot] + s) && |s| < |ts| && SliceEnd(e, low, s).Ok?
    requires Weight(a + b) == Width(e) + 1 + Width(low) && Seen(low, Width(e) + 1, a + ts)
    ensures var r := SliceEnd(e, low, s);
      s == w + r.rest && Weight(a + (b + ([DotDot] + w))) == Width(r.e) && Seen(r.e, 0, a + ts)
    decreases |s|, 6
  {
    hide Pratt, Weight, Width, Seen;
    var r := SliceEnd(e, low, s);
    var c := (a + b) + [DotDot];
    SliceText(a, b, s);
    PlainWeight([DotDot]);
    WeightJoin(a + b, [DotDot]);
    if Cur(s) == RBracket {
      w := [RBracket];
      assert s == w + s[1..];
      SliceText(a, b, w);
      PlainWeight(w);
      WeightJoin(c, w);
      SliceSeen(e, low, None, a + ts);
    } else {
      var high := Pratt(s, 1);
      var v := PrattReads(s, 1);
      w := v + [RBracket];
      assert high.rest == [RBracket] + r.rest && r.e == Slice(e, low, Some(high.e));
      hide SliceEnd;
      Joined(v, [RBracket], r.rest);
      SliceText(a, b, w);
      HighReads(c, high.e, v, s, high.rest);
      SliceSeen(e, low, Some(high.e), a + ts);
    }
  }

  lemma {:induction false} HighReads(c: seq<Token>, x: Expr, v: seq<Token>, s: seq<Token>, rest: seq<Token>)
    requires Reads(s, v, x, rest)
    ensures Weight(c + (v + [RBracket])) == Weight(c) + Width(x) + 1 && Seen(x, Weight(c), c + s)
  {
    Operand(c, x, v, s, rest);
    PlainWeight([RBracket]);
    hide Weight;
    WeightJoin(c + v, [RBracket]);
    Joined(c, v, [RBracket]);
  }

  lemma {:induction false} SliceText(a: seq<Token>, b: seq<Token>, w: seq<Token>)
    ensures a + (b + ([DotDot] + w)) == ((a + b) + [DotDot]) + w
  {
    Joined(a + b, [DotDot], w);
    Joined(a, b, [DotDot] + w);
  }

  lemma {:induction false} SliceSeen(e: Expr, low: Expr, hi: Option<Expr>, ts: seq<Token>)
    requires Seen(e, 0, ts) && Seen(low, Width(e) + 1, ts)
    requires hi.Some? ==> Seen(hi.value, Width(e) + 1 + Width(low) + 1, ts)
    ensures Seen(Slice(e, low, hi), 0, ts)
    ensures Width(Slice(e, low, hi)) == Width(e) + 1 + Width(low) + 1 + (if hi.Some? then Width(hi.value) else 0) + 1
  {}

  lemma {:induction false} PrimaryReads(ts: seq<Token>) returns (u: seq<Token>)
    requires Primary(ts).Ok? && Cur(ts) != Kw(KwNot)
    ensures Reads(ts, u, Primary(ts).e, Primary(ts).rest)
    decreases |ts|, 2
  {
    var r := Primary(ts);
    var t, rest := ts[0], ts[1..];
    assert ts == [t] + rest;
    if t == LParen {
      var v := PrattReads(rest, 1);
      u := ParenReads(rest, v);
    } else if t == LBracket {
      hide Pratt, ParseCall, ListOrComp;
      var v := ListOrCompReads(rest);
      u := [LBracket] + v;
      Joined([LBracket], v, r.rest);
    } else if (t.Ident? || (t.Kw? && LiteralKeyword(t.k).None?)) && Look(ts) == LParen {
      var more := ts[2..];
      assert ts == [t, LParen] + more;
      hide Pratt, ParseCall, ListOrComp;
      var v := CallReads(t, NameOf(t), more);
      u := [t, LParen] + v;
      Joined([t, LParen], v, r.rest);
    } else {
      u := [t];
      hide Pratt, ParseCall, ListOrComp;
      PlainWeight(u);
    }
  }

  lemma {:induction false} ParenReads(ts: seq<Token>, v: seq<Token>) returns (u: seq<Token>)
    requires Pratt(ts, 1).Ok? && Cur(Pratt(ts, 1).rest) == RParen && Reads(ts, v, Pratt(ts, 1).e, Pratt(ts, 1).rest)
    ensures Reads([LParen] + ts, u, Pratt(ts, 1).e, Pratt(ts, 1).rest[1..])
  {
    var r := Pratt(ts, 1);
    hide Pratt;
    var s := r.rest[1..];
    u := [LParen] + v + [RParen];
    assert r.rest == [RParen] + s;
    assert Weight([LParen]) == 0 && Weight([RParen]) == 0;
    Operand([LParen], r.e, v, ts, r.rest);
    WeightJoin([LParen] + v, [RParen]);
    Joined([LParen], v, r.rest);
    Joined([LParen] + v, [RParen], s);
  }

  lemma {:induction false} ExprsReads(ts: seq<Token>) returns (u: seq<Token>)
    requires Exprs(ts).OkList?
    ensures var r := Exprs(ts); ts == u + r.more && r.es != [] && Weight(u) == WidthAll(r.es) && SeenAll(r.es, 0, ts)
    decreases |ts|, 6
  {
    hide Pratt, Weight, Width, Seen;
    var r, first := Exprs(ts), Pratt(ts, 1);
    var v := PrattReads(ts, 1);
    if Cur(first.rest) != Comma {
      u := v;
      assert r.es == [first.e] && r.es[1..] == [];
    } else {
      var more := first.rest[1..];
      assert first.rest == [Comma] + more;
      var es := Exprs(more);
      var w := ExprsReads(more);
      assert r.es == [first.e] + es.es && r.more == es.more;
      hide Exprs;
      u := (v + [Comma]) + w;
      CommaReads(first.e, es.es, v, w, ts, more, r.more);
    }
  }

  lemma {:induction false} CommaReads(e: Expr, es: seq<Expr>, v: seq<Token>, w: seq<Token>, ts: seq<Token>,
                                      more: seq<Token>, rest: seq<Token>)
    requires ts == v + ([Comma] + more) && Weight(v) == Width(e) && Seen(e, 0, ts)
    requires more == w + rest && es != [] && Weight(w) == WidthAll(es) && SeenAll(es, 0, more)
    ensures var u := (v + [Comma]) + w;
      ts == u + rest && Weight(u) == WidthAll([e] + es) && SeenAll([e] + es, 0, ts)
  {
    hide Weight, Width, Seen;
    var b, all := v + [Comma], [e] + es;
    assert all[1..] == es && all[0] == e && |all| > 1;
    Joined(v, [Comma], more);
    Joined(b, w, rest);
    WeightJoin(v, [Comma]);
    PlainWeight([Comma]);
    WeightJoin(b, w);
    SeenAllShift(es, b, more, 0);
    hide SeenAll;
    assert SeenAll(es, Width(e) + 1, ts);
    CommaSeen(e, es, ts);
  }

  lemma {:induction false} CommaSeen(e: Expr, es: seq<Expr>, ts: seq<Token>)
    requires Seen(e, 0, ts) && SeenAll(es, Width(e) + 1, ts)
    ensures SeenAll([e] + es, 0, ts)
  {
    hide Seen, Width;
    assert ([e] + es)[1..] == es;
  }

  /** The elements of a list or the arguments of a call, after the tokens a. */
  lemma {:induction false} ElementsRead(a: seq<Token>, es: seq<Expr>, u: seq<Token>, ts: seq<Token>, rest: seq<Token>)
    requires ts == u + rest && Weight(u) == WidthAll(es) && SeenAll(es, 0, ts)
    ensures SeenAll(es, Weight(a), a + ts) && Weight(a + u) == Weight(a) + WidthAll(es)
  {
    SeenAllShift(es, a, ts, 0);
    WeightJoin(a, u);
  }

  lemma {:induction false} ListOrCompReads(ts: seq<Token>) returns (u: seq<Token>)
    requires ListOrComp(ts).Ok?
    ensures var r := ListOrComp(ts);
      ts == u + r.rest && Weight([LBracket] + u) == Width(r.e) && Seen(r.e, 0, [LBracket] + ts)
    decreases |ts|, 7
  {
    hide Exprs, ParseComp, Weight, Width, Seen, SeenAll;
    var r := ListOrComp(ts);
    if LikeComp(ts) {
      u := CompReads(ts[0].n, ts);
    } else {
      PlainWeight([LBracket]);
      PlainWeight([RBracket]);
      if Cur(ts) == RBracket {
        u := [RBracket];
        assert ts == [RBracket] + ts[1..];
        WeightJoin([LBracket], u);
        NoArgsSeen(1, [LBracket] + ts);
        ListSeen([], ts);
      } else {
        var es := Exprs(ts);
        var v := ExprsReads(ts);
        u := v + [RBracket];
        assert es.more == [RBracket] + r.rest;
        Joined(v, [RBracket], r.rest);
        ElementsRead([LBracket], es.es, v, ts, es.more);
        Joined([LBracket], v, [RBracket]);
        WeightJoin([LBracket] + v, [RBracket]);
        ListSeen(es.es, ts);
      }
    }
  }

  lemma {:induction false} ListSeen(es: seq<Expr>, ts: seq<Token>)
    requires !LikeComp(ts) && SeenAll(es, 1, [LBracket] + ts)
    ensures Seen(List(es), 0, [LBracket] + ts) && Width(List(es)) == 1 + WidthAll(es) + 1
  {
    assert From([LBracket] + ts, 0) == [LBracket] + ts;
    assert Rest([LBracket] + ts) == ts;
  }

  /** A part of a comprehension behind its lead token. */
  lemma {:induction false} OptionalReads(a: seq<Token>, lead: Token, ts: seq<Token>) returns (u: seq<Token>)
    requires ParseOptional(lead, ts).OkOption? && !Grouping(lead)
    ensures var r := ParseOptional(lead, ts);
      && ts == u + r.after && Weight(a + u) == Weight(a) + (if r.o.Some? then 1 + Width(r.o.value) else 0)
      && (r.o.Some? ==> Seen(r.o.value, Weight(a) + 1, a + ts))
    decreases |ts|, 6
  {
    hide Pratt, Weight, Width, Seen;
    if ts == [] || ts[0] != lead {
      u := [];
      assert a + [] == a;
    } else {
      var r, more := Pratt(ts[1..], 1), ts[1..];
      var v := PrattReads(more, 1);
      u := [lead] + v;
      assert ts == [lead] + more;
      Joined([lead], v, r.rest);
      LeadReads(a, lead, r.e, v, more, r.rest);
    }
  }

  lemma {:induction false} LeadReads(a: seq<Token>, lead: Token, x: Expr, v: seq<Token>, ts: seq<Token>,
                                     rest: seq<Token>)
    requires !Grouping(lead) && Reads(ts, v, x, rest)
    ensures Weight(a + ([lead] + v)) == Weight(a) + 1 + Width(x) && Seen(x, Weight(a) + 1, a + ([lead] + ts))
  {
    WeightJoin(a, [lead]);
    PlainWeight([lead]);
    Operand(a + [lead], x, v, ts, rest);
    Joined(a, [lead], v);
    Joined(a, [lead], ts);
    hide Weight;
  }

  lemma {:induction false} CompReads(v: Name, ts: seq<Token>) returns (u: seq<Token>)
    requires |ts| >= 2 && ts[0] == Ident(v) && ts[1] == Kw(KwIn) && ParseComp(v, ts[2..]).Ok?
    ensures var r := ParseComp(v, ts[2..]);
      ts == u + r.rest && Weight([LBracket] + u) == Width(r.e) && Seen(r.e, 0, [LBracket] + ts)
    decreases |ts|, 6
  {
    hide Pratt, Weight, Width, Seen, ParseOptional;
    var r, more, head := ParseComp(v, ts[2..]), ts[2..], [LBracket] + ts[..2];
    assert [LBracket] + ts == head + more;
    PlainWeight(head);
    var src := Pratt(more, 1);
    var x := PrattReads(more, 1);
    Operand(head, src.e, x, more, src.rest);
    Joined(head, x, src.rest);
    var a := head + x;
    var cond := ParseOptional(Kw(KwWhere), src.rest);
    var proj := ParseOptional(Pipe, cond.after);
    assert r.e == Comp(v, src.e, cond.o, proj.o) && proj.after == [RBracket] + r.rest;
    hide ParseComp;
    var b := CompParts(a, head + more, r.e, src.rest, cond, proj);
    assert head + more == b + r.rest;
    u := b[1..];
    PrefixHead(b, [LBracket] + ts, r.rest);
  }

  /** A text of which the first token is known. */
  lemma {:induction false} PrefixHead(b: seq<Token>, all: seq<Token>, rest: seq<Token>)
    requires all == b + rest && b != []
    ensures b[0] == all[0] && all[1..] == b[1..] + rest && [all[0]] + b[1..] == b
  {}

  /** The condition, the projection and the bracket after the source. */
  lemma {:induction false} CompParts(a: seq<Token>, all: seq<Token>, e: Expr, ts: seq<Token>, cond: ParsedOption,
                                     proj: ParsedOption)
    returns (b: seq<Token>)
    requires e.Comp? && all == a + ts && Weight(a) == 3 + Width(e.src) && Seen(e.src, 3, all)
    requires cond == ParseOptional(Kw(KwWhere), ts) && cond.OkOption? && cond.o == e.cond
    requires proj == ParseOptional(Pipe, cond.after) && proj.OkOption? && proj.o == e.proj
      && Cur(proj.after) == RBracket
    ensures all == b + proj.after[1..] && b != [] && Weight(b) == Width(e) && Seen(e, 0, all)
    decreases |ts|, 7
  {
    hide ParseOptional, Weight, Width, Seen;
    var y := OptionalReads(a, Kw(KwWhere), ts);
    var a2 := a + y;
    Joined(a, y, cond.after);
    var z := OptionalReads(a2, Pipe, cond.after);
    var a3 := a2 + z;
    Joined(a2, z, proj.after);
    var rest := proj.after[1..];
    assert proj.after == [RBracket] + rest;
    b := a3 + [RBracket];
    Joined(a3, [RBracket], rest);
    WeightJoin(a3, [RBracket]);
    PlainWeight([RBracket]);
    CompSeen(e, all);
  }

  lemma {:induction false} CompSeen(e: Expr, ts: seq<Token>)
    requires e.Comp? && Seen(e.src, 3, ts) && (e.cond.Some? ==> Seen(e.cond.value, 3 + Width(e.src) + 1, ts))
    requires var w := 3 + Width(e.src) + (if e.cond.Some? then 1 + Width(e.cond.value) else 0);
      e.proj.Some? ==> Seen(e.proj.value, w + 1, ts)
    ensures Seen(e, 0, ts)
    ensures Width(e) == 3 + Width(e.src) + (if e.cond.Some? then 1 + Width(e.cond.value) else 0) +
      (if e.proj.Some? then 1 + Width(e.proj.value) else 0) + 1
  {}

  lemma {:induction false} CallReads(h: Token, f: Name, ts: seq<Token>) returns (u: seq<Token>)
    requires ParseCall(f, ts).Ok? && (h.Ident? || h.Kw?) && (f.Reserved? && f.k in TAKEN ==> h != Kw(f.k))
    ensures var r := ParseCall(f, ts);
      ts == u + r.rest && Weight([h, LParen] + u) == Width(r.e) && Seen(r.e, 0, [h, LParen] + ts)
    decreases |ts|, 8
  {
    hide CallArgs, Weight, Width, Seen;
    var r, head := ParseCall(f, ts), [h, LParen];
    CallHead(h, ts);
    hide From;
    if Cur(ts) == Kw(KwDistinct) {
      var d, more := [Kw(KwDistinct)], ts[1..];
      assert ts == d + more;
      PlainWeight(d);
      WeightJoin(head, d);
      Joined(head, d, more);
      var v := ArgsRead(head + d, f, true, more, head + ts);
      u := d + v;
      Joined(d, v, r.rest);
      Joined(head, d, v);
    } else {
      u := ArgsRead(head, f, false, ts, head + ts);
    }
  }

  lemma {:induction false} CallHead(h: Token, ts: seq<Token>)
    requires !Grouping(h)
    ensures var all := [h, LParen] + ts; From(all, 0) == all && Cur(all) == h && Look(Rest(all)) == Cur(ts)
    ensures Weight([h, LParen]) == 1
  {
    assert [h, LParen] == [h] + [LParen];
    WeightJoin([h], [LParen]);
    PlainWeight([h]);
  }

  lemma {:induction false} ArgsRead(a: seq<Token>, f: Name, distinct: bool, ts: seq<Token>, all: seq<Token>)
    returns (u: seq<Token>)
    requires CallArgs(f, distinct, ts).Ok? && all == a + ts && Weight(a) == 1 + Count(distinct)
    requires f.Reserved? && f.k in TAKEN ==> Cur(From(all, 0)) != Kw(f.k)
    requires !distinct ==> Look(Rest(From(all, 0))) != Kw(KwDistinct)
    ensures var r := CallArgs(f, distinct, ts); ts == u + r.rest && Weight(a + u) == Width(r.e) && Seen(r.e, 0, all)
    decreases |ts|, 7
  {
    hide Exprs, From, Weight, Width, Seen, SeenAll;
    var r := CallArgs(f, distinct, ts);
    LoneParen();
    if Cur(ts) == Star {
      u := [Star] + [RParen];
      assert ts == u + ts[2..];
      PlainWeight([Star]);
      WeightJoin([Star], [RParen]);
      WeightJoin(a, u);
      CallSeen(f, distinct, true, [], all) by { NoArgsSeen(1 + Count(distinct), all); }
    } else if Cur(ts) == RParen {
      u := [RParen];
      assert ts == u + ts[1..];
      WeightJoin(a, u);
      CallSeen(f, distinct, false, [], all) by { NoArgsSeen(1 + Count(distinct), all); }
    } else {
      var es := Exprs(ts);
      var v := ExprsReads(ts);
      u := v + [RParen];
      assert es.more == [RParen] + r.rest;
      Joined(v, [RParen], r.rest);
      ElementsRead(a, es.es, v, ts, es.more);
      Joined(a, v, [RParen]);
      WeightJoin(a + v, [RParen]);
      CallSeen(f, distinct, false, es.es, all);
    }
  }

  lemma {:induction false} LoneParen()
    ensures Weight([RParen]) == 0 && Weight([LParen]) == 0
  {}

  lemma {:induction false} NoArgsSeen(m: nat, ts: seq<Token>)
    ensures SeenAll([], m, ts)
  {}

  lemma {:induction false} CallSeen(f: Name, distinct: bool, star: bool, args: seq<Expr>, ts: seq<Token>)
    requires (f.Reserved? && f.k in TAKEN ==> Cur(From(ts, 0)) != Kw(f.k)) && (star ==> args == [])
    requires (!distinct ==> Look(Rest(From(ts, 0))) != Kw(KwDistinct)) && SeenAll(args, 1 + Count(distinct), ts)
    ensures Seen(Call(f, distinct, star, args), 0, ts)
    ensures Width(Call(f, distinct, star, args)) == 1 + Count(distinct) + if star then 1 else WidthAll(args)
  {
    hide SeenAll, From;
  }

  // ---- the printer ------------------------------------------------------------------------

  lemma {:induction false} WeightThree(a: seq<Token>, b: seq<Token>, c: seq<Token>)
    ensures Weight(a + (b + c)) == Weight(a) + Weight(b) + Weight(c)
  {
    WeightJoin(a, b + c);
    WeightJoin(b, c);
  }

  lemma {:induction false} PrintWeight(e: Expr)
    ensures Weight(Print(e)) == Width(e)
    decreases e, 1
  {
    hide Weight, OpTokens, Term, PredTail, Optional, Commas;
    match e {
      case Unary(u, x) =>
        TermWeight(x, Prec(e), true);
        PlainWeight([UnaryToken(u)]);
        WeightJoin([UnaryToken(u)], Term(x, Prec(e), true));
      case Binary(op, l, r) =>
        TermWeight(l, Prec(e), false);
        TermWeight(r, Prec(e), true);
        OpPlain(op);
        PlainWeight(OpTokens(op));
        WeightThree(Term(l, Prec(e), false), OpTokens(op), Term(r, Prec(e), true));
      case Pred(x, neg, typ) =>
        TermWeight(x, 5, false);
        PredPlain(neg, typ);
        PlainWeight(PredTail(neg, typ));
        WeightJoin(Term(x, 5, false), PredTail(neg, typ));
      case Property(x, n) =>
        TermWeight(x, 10, false);
        PlainWeight([Dot, NameToken(n)]);
        WeightJoin(Term(x, 10, false), [Dot, NameToken(n)]);
      case Index(x, i) =>
        TermWeight(x, 10, false);
        Enclosed(i);
        WeightThree(Term(x, 10, false), [LBracket], Print(i) + [RBracket]);
      case Slice(x, lo, hi) => SliceWeight(e);
      case List(es) =>
        CommasWeight(es);
        PlainWeight([LBracket]);
        PlainWeight([RBracket]);
        WeightThree([LBracket], Commas(es), [RBracket]);
      case Comp(v, src, cond, proj) => CompWeight(e);
      case Call(f, distinct, star, args) => CallWeight(e);
      case _ => PlainWeight(Print(e));
    }
  }

  lemma {:induction false} OpPlain(op: BinaryOp)
    ensures forall i :: 0 <= i < |OpTokens(op)| ==> !Grouping(OpTokens(op)[i])
  {}

  lemma {:induction false} PredPlain(neg: bool, typ: Option<Name>)
    ensures forall i :: 0 <= i < |PredTail(neg, typ)| ==> !Grouping(PredTail(neg, typ)[i])
  {}

  /** An expression before a closing bracket. */
  lemma {:induction false} Enclosed(i: Expr)
    ensures Weight(Print(i) + [RBracket]) == Width(i) + 1 && Weight([LBracket]) == 1 && Weight([RBracket]) == 1
    decreases i, 2
  {
    PrintWeight(i);
    hide Weight, Print;
    WeightJoin(Print(i), [RBracket]);
    PlainWeight([RBracket]);
    PlainWeight([LBracket]);
  }

  lemma {:induction false} TermWeight(e: Expr, parent: nat, right: bool)
    ensures Weight(Term(e, parent, right)) == Width(e)
    decreases e, 2
  {
    PrintWeight(e);
    if Paren(e, parent, right) {
      LoneParen();
      hide Print, Weight;
      WeightJoin([LParen] + Print(e), [RParen]);
      WeightJoin([LParen], Print(e));
    }
  }

  lemma {:induction false} OptionalWeight(lead: seq<Token>, o: Option<Expr>)
    requires forall i :: 0 <= i < |lead| ==> !Grouping(lead[i])
    ensures Weight(Optional(lead, o)) == if o.Some? then |lead| + Width(o.value) else 0
    decreases o, 2
  {
    if o.Some? {
      PrintWeight(o.value);
      hide Print, Weight;
      PlainWeight(lead);
      WeightJoin(lead, Print(o.value));
    }
  }

  lemma {:induction false} SliceWeight(e: Expr)
    requires e.Slice?
    ensures Weight(Print(e)) == Width(e)
    decreases e, 0
  {
    var t, l, h := Term(e.x, 10, false), Print(e.low), Optional([], e.high);
    assert Print(e) == t + ([LBracket] + (l + ([DotDot] + (h + [RBracket]))));
    TermWeight(e.x, 10, false);
    PrintWeight(e.low);
    OptionalWeight([], e.high);
    hide Print, Term, Optional, Weight;
    PlainWeight([LBracket]);
    PlainWeight([DotDot]);
    PlainWeight([RBracket]);
    WeightThree(t, [LBracket], l + ([DotDot] + (h + [RBracket])));
    WeightThree(l, [DotDot], h + [RBracket]);
    WeightJoin(h, [RBracket]);
  }

  lemma {:induction false} CompWeight(e: Expr)
    requires e.Comp?
    ensures Weight(Print(e)) == Width(e)
    decreases e, 0
  {
    var x, w, p, head := Print(e.src), Optional([Kw(KwWhere)], e.cond), Optional([Pipe], e.proj),
      [LBracket, Ident(e.v), Kw(KwIn)];
    assert Print(e) == head + (x + (w + (p + [RBracket])));
    PrintWeight(e.src);
    OptionalWeight([Kw(KwWhere)], e.cond);
    OptionalWeight([Pipe], e.proj);
    hide Print, Optional, Weight;
    PlainWeight(head);
    PlainWeight([RBracket]);
    WeightThree(head, x, w + (p + [RBracket]));
    WeightThree(w, p, [RBracket]);
  }

  lemma {:induction false} CallWeight(e: Expr)
    requires e.Call?
    ensures Weight(Print(e)) == Width(e)
    decreases e, 0
  {
    var d, b, head := if e.distinct then [Kw(KwDistinct)] else [], if e.star then [Star]
      else Commas(e.args), [NameToken(e.f), LParen];
    assert Print(e) == head + (d + (b + [RParen]));
    CommasWeight(e.args);
    hide Print, Commas, Weight;
    PlainWeight(d);
    PlainWeight([Star]);
    LoneParen();
    CallHead(NameToken(e.f), []);
    WeightThree(head, d, b + [RParen]);
    WeightJoin(b, [RParen]);
  }

  lemma {:induction false} CommasWeight(es: seq<Expr>)
    ensures Weight(Commas(es)) == WidthAll(es)
    decreases es, 3
  {
    hide Weight, Print, Width;
    if es == [] {
      PlainWeight([]);
    } else {
      PrintWeight(es[0]);
      if |es| > 1 {
        CommasWeight(es[1..]);
        PlainWeight([Comma]);
        WeightThree(Print(es[0]), [Comma], Commas(es[1..]));
      }
    }
  }

  /** A part after the tokens a, in the printer's own text. */
  lemma {:induction false} ExprSeen(a: seq<Token>, x: Expr, s: seq<Token>)
    ensures Seen(x, Weight(a), a + (Print(x) + s)) ==> Writable(x)
    decreases x, 3
  {
    PrintSeen(x, s);
    SeenShift(x, a, Print(x) + s, 0);
  }

  /** An operand with its parentheses, likewise. */
  lemma {:induction false} TermSeen(a: seq<Token>, x: Expr, parent: nat, right: bool, s: seq<Token>)
    ensures Seen(x, Weight(a), a + (Term(x, parent, right) + s)) ==> Writable(x)
    decreases x, 4
  {
    if Paren(x, parent, right) {
      ExprSeen(a + [LParen], x, [RParen] + s);
      LoneParen();
      hide Print, Seen, Writable, Weight;
      WeightJoin(a, [LParen]);
      Joined([LParen] + Print(x), [RParen], s);
      Joined([LParen], Print(x), [RParen] + s);
      Joined(a, [LParen], Print(x) + ([RParen] + s));
    } else {
      ExprSeen(a, x, s);
    }
  }

  lemma {:induction false} OptionalSeen(a: seq<Token>, lead: seq<Token>, o: Option<Expr>, s: seq<Token>)
    requires forall i :: 0 <= i < |lead| ==> !Grouping(lead[i])
    ensures o.Some? && Seen(o.value, Weight(a) + |lead|, a + (Optional(lead, o) + s)) ==> Writable(o.value)
    decreases o, 4
  {
    if o.Some? {
      ExprSeen(a + lead, o.value, s);
      hide Print, Seen, Writable, Weight;
      WeightJoin(a, lead);
      PlainWeight(lead);
      Joined(lead, Print(o.value), s);
      Joined(a, lead, Print(o.value) + s);
    }
  }

  lemma {:induction false} CommasSeen(a: seq<Token>, es: seq<Expr>, s: seq<Token>)
    requires SeenAll(es, Weight(a), a + (Commas(es) + s))
    ensures forall i :: 0 <= i < |es| ==> Writable(es[i])
    decreases es, 5
  {
    hide Print, Seen, Writable, Weight, Width;
    if |es| == 1 {
      ExprSeen(a, es[0], s);
    } else if es != [] {
      var p, c := Print(es[0]), Commas(es[1..]);
      ExprSeen(a, es[0], [Comma] + (c + s));
      Joined(p, [Comma] + c, s);
      Joined([Comma], c, s);
      var b := a + (p + [Comma]);
      PrintWeight(es[0]);
      PlainWeight([Comma]);
      WeightThree(a, p, [Comma]);
      Joined(a, p + [Comma], c + s);
      Joined(p, [Comma], c + s);
      CommasSeen(b, es[1..], s);
      forall i | 0 <= i < |es| ensures Writable(es[i]) { if i > 0 { assert es[i] == es[1..][i-1]; } }
    }
  }

  /** If the parser saw the printer's text of e as one of e, then e is writable. */
  lemma {:induction false} PrintSeen(e: Expr, s: seq<Token>)
    ensures Seen(e, 0, Print(e) + s) ==> Writable(e)
    decreases e, 2
  {
    if Seen(e, 0, Print(e) + s) {
      match e {
        case Unary(u, x) =>
          var a := [UnaryToken(u)];
          PlainWeight(a);
          TermSeen(a, x, Prec(e), true, s);
          Joined(a, Term(x, Prec(e), true), s);
        case Binary(op, l, r) => BinarySeen(e, s);
        case Pred(x, neg, typ) => HeadSeen(x, 5, PredTail(neg, typ), s);
        case Property(x, n) => HeadSeen(x, 10, [Dot, NameToken(n)], s);
        case Index(x, i) => IndexPrinted(e, s);
        case Slice(x, lo, hi) => SlicePrinted(e, s);
        case List(es) => ListPrinted(e, s);
        case Comp(v, src, cond, proj) => CompPrinted(e, s);
        case Call(f, distinct, star, args) => CallPrinted(e, s);
        case _ =>
      }
    }
  }

  /** The operand that a text starts with. */
  lemma {:induction false} HeadSeen(x: Expr, parent: nat, tail: seq<Token>, s: seq<Token>)
    ensures Seen(x, 0, Term(x, parent, false) + tail + s) ==> Writable(x)
    decreases x, 5
  {
    TermSeen([], x, parent, false, tail + s);
    hide Term, Seen, Writable;
    Joined(Term(x, parent, false), tail, s);
    assert [] + (Term(x, parent, false) + (tail + s)) == Term(x, parent, false) + (tail + s);
    assert Weight([]) == 0;
  }

  lemma {:induction false} BinarySeen(e: Expr, s: seq<Token>)
    requires e.Binary? && Seen(e, 0, Print(e) + s)
    ensures Writable(e)
    decreases e, 1
  {
    var p, ops := Prec(e), OpTokens(e.op);
    var tl, tr := Term(e.left, p, false), Term(e.right, p, true);
    assert Print(e) == tl + (ops + tr);
    HeadSeen(e.left, p, ops + tr, s);
    TermWeight(e.left, p, false);
    OpPlain(e.op);
    PlainWeight(ops);
    hide Term, Print, Weight, OpTokens;
    WeightJoin(tl, ops);
    TermSeen(tl + ops, e.right, p, true, s);
    Joined(tl, ops + tr, s);
    Joined(ops, tr, s);
    Joined(tl, ops, tr + s);
  }

  lemma {:induction false} IndexPrinted(e: Expr, s: seq<Token>)
    requires e.Index? && Seen(e, 0, Print(e) + s)
    ensures Writable(e)
    decreases e, 1
  {
    var t, i := Term(e.x, 10, false), Print(e.index);
    assert Print(e) == t + ([LBracket] + (i + [RBracket]));
    HeadSeen(e.x, 10, [LBracket] + (i + [RBracket]), s);
    TermWeight(e.x, 10, false);
    hide Term, Print, Weight;
    PlainWeight([LBracket]);
    WeightJoin(t, [LBracket]);
    ExprSeen(t + [LBracket], e.index, [RBracket] + s);
    Joined(t, [LBracket] + (i + [RBracket]), s);
    Joined([LBracket], i + [RBracket], s);
    Joined(i, [RBracket], s);
    Joined(t, [LBracket], i + ([RBracket] + s));
  }

  lemma {:induction false} SlicePrinted(e: Expr, s: seq<Token>)
    requires e.Slice? && Seen(e, 0, Print(e) + s)
    ensures Writable(e)
    decreases e, 1
  {
    SliceTokens(e, s);
    SliceFirst(e, s);
    SliceLow(e, s);
    if e.high.Some? { SliceHigh(e, s); }
    hide Print, Term, Optional;
  }

  lemma {:induction false} SliceFirst(e: Expr, s: seq<Token>)
    requires e.Slice?
    ensures var c := Optional([], e.high) + ([RBracket] + s);
      Seen(e.x, 0, Term(e.x, 10, false) + ([LBracket] + (Print(e.low) + ([DotDot] + c)))) ==> Writable(e.x)
    decreases e, 0
  {
    var t, l, c := Term(e.x, 10, false), Print(e.low), Optional([], e.high) + ([RBracket] + s);
    HeadSeen(e.x, 10, [LBracket] + (l + ([DotDot] + c)), []);
    hide Term, Print, Weight, Optional, Seen, Writable;
    assert t + ([LBracket] + (l + ([DotDot] + c))) + [] == t + ([LBracket] + (l + ([DotDot] + c)));
  }

  lemma {:induction false} SliceLow(e: Expr, s: seq<Token>)
    requires e.Slice?
    ensures var c := Optional([], e.high) + ([RBracket] + s);
      Seen(e.low, Width(e.x) + 1, Term(e.x, 10, false) + ([LBracket] + (Print(e.low) + ([DotDot] + c)))) ==>
        Writable(e.low)
    decreases e, 0
  {
    var t, l, c := Term(e.x, 10, false), Print(e.low), Optional([], e.high) + ([RBracket] + s);
    TermWeight(e.x, 10, false);
    ExprSeen(t + [LBracket], e.low, [DotDot] + c);
    hide Term, Print, Weight, Optional, Seen, Writable;
    PlainWeight([LBracket]);
    WeightJoin(t, [LBracket]);
    Joined(t, [LBracket], l + ([DotDot] + c));
  }

  lemma {:induction false} SliceHigh(e: Expr, s: seq<Token>)
    requires e.Slice? && e.high.Some?
    ensures var c := Optional([], e.high) + ([RBracket] + s);
      Seen(e.high.value, Width(e.x) + 1 + Width(e.low) + 1,
        Term(e.x, 10, false) + ([LBracket] + (Print(e.low) + ([DotDot] + c)))) ==>
        Writable(e.high.value)
    decreases e, 0
  {
    var t, l, c := Term(e.x, 10, false), Print(e.low), Optional([], e.high) + ([RBracket] + s);
    TermWeight(e.x, 10, false);
    PrintWeight(e.low);
    var b := t + [LBracket];
    OptionalSeen(b + (l + [DotDot]), [], e.high, [RBracket] + s);
    hide Term, Print, Weight, Optional, Seen, Writable;
    PlainWeight([LBracket]);
    PlainWeight([DotDot]);
    WeightJoin(t, [LBracket]);
    WeightThree(b, l, [DotDot]);
    Joined(t, [LBracket], l + ([DotDot] + c));
    Joined(l, [DotDot], c);
    Joined(b, l + [DotDot], c);
  }

  lemma {:induction false} ListPrinted(e: Expr, s: seq<Token>)
    requires e.List? && Seen(e, 0, Print(e) + s)
    ensures Writable(e)
    decreases e, 1
  {
    var c, b := Commas(e.elems), [RBracket] + s;
    var all := [LBracket] + (c + b);
    assert Print(e) == [LBracket] + (c + [RBracket]);
    hide Print, Commas;
    Joined([LBracket], c + [RBracket], s);
    Joined(c, [RBracket], s);
    PlainWeight([LBracket]);
    assert From(all, 0) == all && Rest(all) == c + b;
    CommasSeen([LBracket], e.elems, b);
    assert |c| >= 2 ==> (c + b)[0] == c[0] && (c + b)[1] == c[1];
  }

  /** The text of a comprehension in front of s. */
  function CompText(e: Expr, s: seq<Token>): seq<Token>
    requires e.Comp?
  {
    [LBracket, Ident(e.v), Kw(KwIn)] +
    (Print(e.src) + (Optional([Kw(KwWhere)], e.cond) + (Optional([Pipe], e.proj) + ([RBracket] + s))))
  }

  lemma {:induction false} CompPrinted(e: Expr, s: seq<Token>)
    requires e.Comp? && Seen(e, 0, Print(e) + s)
    ensures Writable(e)
    decreases e, 1
  {
    CompIsText(e, s);
    CompSource(e, s);
    if e.cond.Some? { CompCondition(e, s); }
    if e.proj.Some? { CompProjection(e, s); }
    hide Print, CompText;
  }

  lemma {:induction false} CompIsText(e: Expr, s: seq<Token>)
    requires e.Comp?
    ensures Print(e) + s == CompText(e, s)
  {
    var x, w, p, head := Print(e.src), Optional([Kw(KwWhere)], e.cond), Optional([Pipe], e.proj),
      [LBracket, Ident(e.v), Kw(KwIn)];
    assert Print(e) == head + (x + (w + (p + [RBracket])));
    hide Print, Optional;
    Joined(head, x + (w + (p + [RBracket])), s);
    Joined(x, w + (p + [RBracket]), s);
    Joined(w, p + [RBracket], s);
    Joined(p, [RBracket], s);
  }

  lemma {:induction false} CompSource(e: Expr, s: seq<Token>)
    requires e.Comp?
    ensures Seen(e.src, 3, CompText(e, s)) ==> Writable(e.src)
    decreases e, 0
  {
    var head := [LBracket, Ident(e.v), Kw(KwIn)];
    PlainWeight(head);
    hide Print, Optional, Weight, Seen, Writable;
    ExprSeen(head, e.src, Optional([Kw(KwWhere)], e.cond) + (Optional([Pipe], e.proj) + ([RBracket] + s)));
  }

  lemma {:induction false} CompCondition(e: Expr, s: seq<Token>)
    requires e.Comp? && e.cond.Some?
    ensures Seen(e.cond.value, 3 + Width(e.src) + 1, CompText(e, s)) ==> Writable(e.cond.value)
    decreases e, 0
  {
    var head, x, w, c := [LBracket, Ident(e.v), Kw(KwIn)], Print(e.src), Optional([Kw(KwWhere)], e.cond),
      Optional([Pipe], e.proj) + ([RBracket] + s);
    PlainWeight(head);
    PrintWeight(e.src);
    hide Print, Optional, Weight, Seen, Writable;
    WeightJoin(head, x);
    Joined(head, x, w + c);
    OptionalSeen(head + x, [Kw(KwWhere)], e.cond, c);
  }

  lemma {:induction false} CompProjection(e: Expr, s: seq<Token>)
    requires e.Comp? && e.proj.Some?
    ensures Seen(e.proj.value, 3 + Width(e.src) + (if e.cond.Some? then 1 + Width(e.cond.value) else 0) + 1,
      CompText(e, s)) ==>
      Writable(e.proj.value)
    decreases e, 0
  {
    var head, x, w, c := [LBracket, Ident(e.v), Kw(KwIn)], Print(e.src), Optional([Kw(KwWhere)], e.cond),
      [RBracket] + s;
    var p := Optional([Pipe], e.proj);
    PlainWeight(head);
    PrintWeight(e.src);
    OptionalWeight([Kw(KwWhere)], e.cond);
    hide Print, Optional, Weight, Seen, Writable;
    WeightJoin(head, x);
    WeightJoin(head + x, w);
    Joined(head, x, w + (p + c));
    Joined(head + x, w, p + c);
    OptionalSeen(head + x + w, [Pipe], e.proj, c);
  }

  lemma {:induction false} CallPrinted(e: Expr, s: seq<Token>)
    requires e.Call? && Seen(e, 0, Print(e) + s)
    ensures Writable(e)
    decreases e, 1
  {
    var h, d, c := NameToken(e.f), if e.distinct then [Kw(KwDistinct)] else [], [RParen] + s;
    var b := if e.star then [Star] else Commas(e.args);
    CallTokens(e, s);
    var ts := Print(e) + s;
    assert ts == [h, LParen] + (d + (b + c));
    CallHead(h, d + (b + c));
    hide Print, Weight, From;
    PlainWeight(d);
    WeightJoin([h, LParen], d);
    Joined([h, LParen], d, b + c);
    if !e.star { CommasSeen([h, LParen] + d, e.args, c); }
    CallFirst(e, d, b, c);
  }

  lemma {:induction false} CallFirst(e: Expr, d: seq<Token>, b: seq<Token>, c: seq<Token>)
    requires e.Call? && d == (if e.distinct then [Kw(KwDistinct)] else [])
      && b == (if e.star then [Star] else Commas(e.args))
    requires !e.distinct ==> Cur(d + (b + c)) != Kw(KwDistinct)
    requires e.star ==> e.args == []
    ensures !e.distinct ==> Cur(Commas(e.args)) != Kw(KwDistinct)
  {
    if !e.distinct && b != [] { assert d + (b + c) == b + c && (b + c)[0] == b[0]; }
  }

  /** Printing and parsing gives the same tree back if and only if it is writable. */
  lemma {:induction false} RoundTripIff(e: Expr)
    ensures Pratt(Print(e), 1) == Ok(e, []) <==> Writable(e)
  {
    if Writable(e) { RoundTrip(e); }
    if Pratt(Print(e), 1) == Ok(e, []) {
      var u := PrattReads(Print(e), 1);
      assert Print(e) + [] == Print(e);
      PrintSeen(e, []);
    }
  }
}
