/** Parsing the printed form of an expression gives the expression back. */
module ExpressionRoundTrip {
  import opened Options
  import opened Expressions

  /** Keywords that mean something else in front of a parenthesis. */
  const TAKEN: set<Keyword> := QUANTIFIERS + {KwNot, KwNull, KwTrue, KwFalse, KwNan, KwInf}

  /** What reads back: no call is named by a taken keyword, `*` takes no arguments,
      no list is printed like a comprehension, and no argument list without
      DISTINCT is printed with that word in front. */
  predicate Writable(e: Expr)
    decreases e
  {
    match e
    case Unary(_, x) => Writable(x)
    case Binary(_, l, r) => Writable(l) && Writable(r)
    case Pred(x, _, _) => Writable(x)
    case Property(x, _) => Writable(x)
    case Index(x, i) => Writable(x) && Writable(i)
    case Slice(x, lo, hi) => Writable(x) && Writable(lo) && (hi.Some? ==> Writable(hi.value))
    case List(es) => (forall i :: 0 <= i < |es| ==> Writable(es[i])) && !LikeComp(Commas(es))
    case Comp(_, src, cond, proj) => Writable(src) && (cond.Some? ==> Writable(cond.value))
      && (proj.Some? ==> Writable(proj.value))
    case Call(f, distinct, star, args) =>
      && (f.Reserved? ==> f.k !in TAKEN) && (star ==> args == []) && (forall i :: 0 <= i < |args| ==> Writable(args[i]))
      && (!distinct ==> Cur(Commas(args)) != Kw(KwDistinct))
    case _ => true
  }

  predicate LikeComp(ts: seq<Token>) { Cur(ts).Ident? && Look(ts) == Kw(KwIn) }

  // ---- what may follow ----------------------------------------------------------------

  predicate IsCmp(e: Expr) { Prec(e) == 5 }

  /** The floor at which the right edge of an expression is parsed. */
  function Limit(e: Expr): nat {
    match e
    case Unary(u, _) => if u == Not then 5 else 9
    case Binary(op, _, _) => if op == Pow then 9 else OpPrec(op) + 1
    case _ => 100
  }

  /** No postfix and no operator that the right edge would take. */
  predicate Tight(s: seq<Token>, limit: nat) {
    Cur(s) != Dot && Cur(s) != LBracket && Cur(s) != LParen && LedPrec(Cur(s)) < limit
  }

  lemma {:induction false} LoopStops(e: Expr, c: bool, s: seq<Token>, f: nat)
    requires LedPrec(Cur(s)) == 0 || LedPrec(Cur(s)) < f
    ensures Loop(e, c, s, f) == Ok(e, s)
  {}

  lemma {:induction false} Joined(a: seq<Token>, b: seq<Token>, c: seq<Token>)
    ensures a + b + c == a + (b + c)
  {}

  // ---- first tokens ---------------------------------------------------------------------

  /** A printed expression starts with a token that starts an expression. */
  lemma {:induction false} FirstToken(e: Expr)
    requires Writable(e)
    ensures Print(e) != []
    ensures var t := Print(e)[0]; t != RParen && t != RBracket && t != Star
    ensures var t := Print(e)[0]; Prec(e) >= 10 ==> t != Kw(KwNot) && t != Plus && t != Minus
    decreases e
  {
    match e {
      case Binary(_, l, _) => FirstToken(l);
      case Pred(x, _, _) => FirstToken(x);
      case Property(x, _) => FirstToken(x);
      case Index(x, _) => FirstToken(x);
      case Slice(x, _, _) => FirstToken(x);
      case _ =>
    }
  }

  // ---- one step of each parsing function ----------------------------------------------------

  lemma {:induction false} PrattStep(ts: seq<Token>, f: nat, left: Expr, rest: seq<Token>)
    requires Prefix(ts) == Ok(left, rest)
    ensures Pratt(ts, f) == Loop(left, false, rest, f)
  { hide Prefix, Loop; }

  lemma {:induction false} PrefixIsPostfix(ts: seq<Token>)
    requires Cur(ts) != Kw(KwNot) && Cur(ts) != Plus && Cur(ts) != Minus
    ensures Prefix(ts) == Postfix(ts)
  { hide Postfix, Pratt; }

  lemma {:induction false} PrefixUnary(u: UnaryOp, ts: seq<Token>, x: Expr, rest: seq<Token>)
    requires Pratt(ts, if u == Not then 5 else 9) == Ok(x, rest)
    ensures Prefix([UnaryToken(u)] + ts) == Ok(Unary(u, x), rest)
  {
    assert ([UnaryToken(u)] + ts)[1..] == ts;
    hide Postfix, Pratt;
  }

  lemma {:induction false} PostfixStep(ts: seq<Token>, e: Expr, rest: seq<Token>)
    requires Primary(ts) == Ok(e, rest)
    ensures Postfix(ts) == PostLoop(e, rest)
  { hide Primary, PostLoop; }

  lemma {:induction false} PostStops(e: Expr, s: seq<Token>)
    requires Cur(s) != Dot && Cur(s) != LBracket
    ensures PostLoop(e, s) == Ok(e, s)
  {}

  lemma {:induction false} PostDot(e: Expr, n: Name, s: seq<Token>)
    ensures PostLoop(e, [Dot, NameToken(n)] + s) == PostLoop(Property(e, n), s)
  {
    var ts := [Dot, NameToken(n)] + s;
    assert ts[2..] == s && ts[1] == NameToken(n);
  }

  lemma {:induction false} PostBracket(e: Expr, ts: seq<Token>, e': Expr, rest: seq<Token>)
    requires PostfixIndex(e, [LBracket] + ts) == Ok(e', rest)
    ensures PostLoop(e, [LBracket] + ts) == PostLoop(e', rest)
  { hide PostfixIndex; }

  lemma {:induction false} IndexStep(e: Expr, ts: seq<Token>, i: Expr, s: seq<Token>)
    requires Pratt(ts, 1) == Ok(i, [RBracket] + s)
    ensures PostfixIndex(e, [LBracket] + ts) == Ok(Index(e, i), s)
  {
    assert ([LBracket] + ts)[1..] == ts && ([RBracket] + s)[1..] == s;
    hide Pratt;
  }

  lemma {:induction false} SliceStep(e: Expr, ts: seq<Token>, low: Expr, more: seq<Token>, high: Option<Expr>,
                                     s: seq<Token>)
    requires Pratt(ts, 1) == Ok(low, [DotDot] + more)
    requires high.None? ==> more == [RBracket] + s
    requires high.Some? ==> Cur(more) != RBracket && Pratt(more, 1) == Ok(high.value, [RBracket] + s)
    ensures PostfixIndex(e, [LBracket] + ts) == Ok(Slice(e, low, high), s)
  {
    assert ([LBracket] + ts)[1..] == ts && ([RBracket] + s)[1..] == s && ([DotDot] + more)[1..] == more;
    assert high.None? ==> ([DotDot] + more)[2..] == s;
    hide Pratt;
  }

  lemma {:induction false} PrimaryParen(ts: seq<Token>, e: Expr, s: seq<Token>)
    requires Pratt(ts, 1) == Ok(e, [RParen] + s)
    ensures Primary([LParen] + ts) == Ok(e, s)
  {
    assert ([LParen] + ts)[1..] == ts && ([RParen] + s)[1..] == s;
    hide Pratt, ListOrComp, ParseCall;
  }

  lemma {:induction false} LoopLed(left: Expr, c: bool, op: BinaryOp, ts: seq<Token>, right: Expr, s: seq<Token>,
                                   f: nat)
    requires f <= OpPrec(op) && !(c && OpPrec(op) == 5)
      && Pratt(ts, if op == Pow then 9 else OpPrec(op) + 1) == Ok(right, s)
    ensures Loop(left, c, OpTokens(op) + ts, f) == Loop(Binary(op, left, right), OpPrec(op) == 5, s, f)
  {
    var all := OpTokens(op) + ts;
    OpLed(op);
    assert all[0] == OpTokens(op)[0] && all[|OpTokens(op)|..] == ts;
    if |OpTokens(op)| == 2 { assert all[1] == OpTokens(op)[1]; }
    assert ApplyLed(left, all) == Ok(Binary(op, left, right), s) by { hide Pratt; }
    hide ApplyLed, OpTokens, LedPrec;
  }

  lemma {:induction false} OpLed(op: BinaryOp)
    ensures var t := OpTokens(op)[0]; LedPrec(t) == OpPrec(op) > 0 && t != Kw(KwIs) && LedOp(t) == op
    ensures |OpTokens(op)| == if op == StartsWith || op == EndsWith then 2 else 1
    ensures |OpTokens(op)| == 2 ==>
      OpTokens(op)[1] == Kw(KwWith) && (OpTokens(op)[0] == Kw(KwStarts) || OpTokens(op)[0] == Kw(KwEnds))
    ensures |OpTokens(op)| == 1 ==> OpTokens(op)[0] != Kw(KwStarts) && OpTokens(op)[0] != Kw(KwEnds)
    ensures OpPrec(op) == 9 <==> op == Pow
  {}

  lemma {:induction false} LoopPred(left: Expr, neg: bool, typ: Option<Name>, s: seq<Token>, f: nat)
    requires f <= 5
    ensures Loop(left, false, PredTail(neg, typ) + s, f) == Loop(Pred(left, neg, typ), true, s, f)
  {
    var tail := (if neg then [Kw(KwNot)] else []) + if typ.None? then [Kw(KwNull)]
      else [ColonColon, NameToken(typ.value)];
    var all := PredTail(neg, typ) + s;
    assert all == [Kw(KwIs)] + (tail + s) && all[1..] == tail + s;
    PredStep(left, neg, typ, s);
    assert ApplyLed(left, all) == Ok(Pred(left, neg, typ), s);
    hide ApplyLed, ParsePred;
  }

  lemma {:induction false} PredStep(left: Expr, neg: bool, typ: Option<Name>, s: seq<Token>)
    ensures ParsePred(left,
      (if neg then [Kw(KwNot)] else []) + (if typ.None? then [Kw(KwNull)] else [ColonColon, NameToken(typ.value)]) +
        s) == Ok(Pred(left, neg, typ), s)
  {
    var last := if typ.None? then [Kw(KwNull)] else [ColonColon, NameToken(typ.value)];
    var ts := (if neg then [Kw(KwNot)] else []) + last + s;
    assert (if neg then ts[1..] else ts) == last + s;
    assert (last + s)[|last|..] == s;
  }

  // ---- the round trip ---------------------------------------------------------------------

  predicate Closed(s: seq<Token>) { Tight(s, 1) }

  /** A whole expression in front of a token that cannot continue it. */
  lemma {:induction false} Whole(e: Expr, s: seq<Token>)
    requires Writable(e) && Closed(s)
    ensures Pratt(Print(e) + s, 1) == Ok(e, s)
    decreases e, 5
  {
    Printed(e, s, 1);
    LoopStops(e, IsCmp(e), s, 1);
  }

  /** After an unparenthesized expression the parser stands in its loop with that expression on the left. */
  lemma {:induction false} Printed(e: Expr, s: seq<Token>, f: nat)
    requires Writable(e) && 1 <= f <= Prec(e) && Tight(s, Limit(e))
    ensures Pratt(Print(e) + s, f) == Loop(e, IsCmp(e), s, f)
    decreases e, 4
  {
    hide Pratt, Loop, Prefix, Postfix, PostLoop, OpTokens, Writable, PredTail;
    if Prec(e) >= 10 {
      FirstToken(e);
      Posted(e, s);
      PostStops(e, s);
      PrefixIsPostfix(Print(e) + s);
      PrattStep(Print(e) + s, f, e, s);
    } else {
      match e {
        case Unary(u, x) => PrintedUnary(e, s, f);
        case Binary(op, l, r) => PrintedBinary(e, s, f);
        case Pred(x, neg, typ) => PrintedPred(e, s, f);
      }
    }
  }

  lemma {:induction false} PrintedUnary(e: Expr, s: seq<Token>, f: nat)
    requires e.Unary? && Writable(e) && 1 <= f <= Prec(e) && Tight(s, Limit(e))
    ensures Pratt(Print(e) + s, f) == Loop(e, false, s, f)
    decreases e, 3
  {
    var u, x, g := e.u, e.x, if e.u == Not then 5 else 9;
    var t := Term(x, Prec(e), true);
    hide Pratt, Loop, Prefix;
    Termed(x, Prec(e), true, s, g);
    LoopStops(x, IsCmp(x) && !Paren(x, Prec(e), true), s, g);
    PrefixUnary(u, t + s, x, s);
    Joined([UnaryToken(u)], t, s);
    PrattStep(Print(e) + s, f, e, s);
  }

  lemma {:induction false} PrintedBinary(e: Expr, s: seq<Token>, f: nat)
    requires e.Binary? && Writable(e) && 1 <= f <= Prec(e) && Tight(s, Limit(e))
    ensures Pratt(Print(e) + s, f) == Loop(e, IsCmp(e), s, f)
    decreases e, 3
  {
    var op, l, r, p := e.op, e.left, e.right, Prec(e);
    var tl, tr, g := Term(l, p, false), Term(r, p, true), if op == Pow then 9 else p + 1;
    OpLed(op);
    hide Pratt, Loop, OpTokens, LedPrec, Term, LedOp;
    Termed(r, p, true, s, g);
    LoopStops(r, IsCmp(r) && !Paren(r, p, true), s, g);
    var rest := OpTokens(op) + (tr + s);
    assert Cur(rest) == OpTokens(op)[0];
    OpTight(op);
    Termed(l, p, false, rest, f);
    LoopLed(l, IsCmp(l) && !Paren(l, p, false), op, tr + s, r, s, f);
    BinaryTokens(e, s);
  }

  lemma {:induction false} BinaryTokens(e: Expr, s: seq<Token>)
    requires e.Binary?
    ensures Print(e) + s == Term(e.left, Prec(e), false) + (OpTokens(e.op) + (Term(e.right, Prec(e), true) + s))
  {
    var tl, tr := Term(e.left, Prec(e), false), Term(e.right, Prec(e), true);
    hide Term, OpTokens;
    Joined(tl, OpTokens(e.op) + tr, s);
    Joined(OpTokens(e.op), tr, s);
  }

  lemma {:induction false} OpTight(op: BinaryOp)
    ensures OpTokens(op)[0] != Dot && OpTokens(op)[0] != LBracket && OpTokens(op)[0] != LParen
  {}

  lemma {:induction false} PrintedPred(e: Expr, s: seq<Token>, f: nat)
    requires e.Pred? && Writable(e) && 1 <= f <= Prec(e) && Tight(s, Limit(e))
    ensures Pratt(Print(e) + s, f) == Loop(e, true, s, f)
    decreases e, 3
  {
    var x, tail := e.x, PredTail(e.negated, e.typ);
    var t := Term(x, 5, false);
    assert Cur(tail + s) == Kw(KwIs);
    hide Pratt, Loop, PredTail, Term;
    Termed(x, 5, false, tail + s, f);
    LoopPred(x, e.negated, e.typ, s, f);
    Joined(t, tail, s);
  }

  /** An operand, with its parentheses if it has any. */
  lemma {:induction false} Termed(e: Expr, parent: nat, right: bool, s: seq<Token>, f: nat)
    requires Writable(e) && 1 <= f && Cur(s) != Dot && Cur(s) != LBracket && Cur(s) != LParen
    requires !Paren(e, parent, right) ==> f <= Prec(e) && Tight(s, Limit(e))
    ensures Pratt(Term(e, parent, right) + s, f) == Loop(e, IsCmp(e) && !Paren(e, parent, right), s, f)
    decreases e, 7
  {
    hide Pratt, Loop, Prefix, Postfix, PostLoop, Primary, Print;
    if Paren(e, parent, right) {
      var ts := [LParen] + (Print(e) + ([RParen] + s));
      Parenthesized(e, s);
      PostfixStep(ts, e, s);
      PostStops(e, s);
      PrefixIsPostfix(ts);
      PrattStep(ts, f, e, s);
      assert Term(e, parent, right) + s == ts;
    } else {
      Printed(e, s, f);
    }
  }

  lemma {:induction false} Parenthesized(e: Expr, s: seq<Token>)
    requires Writable(e)
    ensures Primary([LParen] + (Print(e) + ([RParen] + s))) == Ok(e, s)
    decreases e, 6
  {
    assert Cur([RParen] + s) == RParen;
    Whole(e, [RParen] + s);
    PrimaryParen(Print(e) + ([RParen] + s), e, s);
  }

  /** A postfix expression leaves the parser in the postfix loop. */
  lemma {:induction false} Posted(e: Expr, s: seq<Token>)
    requires Writable(e) && Prec(e) >= 10 && Cur(s) != LParen
    ensures Postfix(Print(e) + s) == PostLoop(e, s)
    decreases e, 2
  {
    hide Postfix, PostLoop, Primary, PostfixIndex, Pratt, Term;
    match e {
      case Property(x, n) =>
        TermPosted(x, [Dot, NameToken(n)] + s);
        PostDot(x, n, s);
        Joined(Term(x, 10, false), [Dot, NameToken(n)], s);
      case Index(x, i) => PostedIndex(e, s);
      case Slice(x, lo, hi) => PostedSlice(e, s);
      case _ =>
        PrimaryParses(e, s);
        PostfixStep(Print(e) + s, e, s);
    }
  }

  lemma {:induction false} TermPosted(x: Expr, s: seq<Token>)
    requires Writable(x) && Cur(s) != LParen
    ensures Postfix(Term(x, 10, false) + s) == PostLoop(x, s)
    decreases x, 7
  {
    hide Postfix, PostLoop, Primary, Print;
    if Paren(x, 10, false) {
      var ts := [LParen] + (Print(x) + ([RParen] + s));
      Parenthesized(x, s);
      PostfixStep(ts, x, s);
      assert Term(x, 10, false) + s == ts;
    } else {
      Posted(x, s);
    }
  }

  lemma {:induction false} PostedIndex(e: Expr, s: seq<Token>)
    requires e.Index? && Writable(e) && Cur(s) != LParen
    ensures Postfix(Print(e) + s) == PostLoop(e, s)
    decreases e, 0
  {
    var x, i, t := e.x, e.index, Term(e.x, 10, false);
    var inner := Print(i) + ([RBracket] + s);
    hide Postfix, PostLoop, PostfixIndex, Pratt, Term;
    assert Cur([RBracket] + s) == RBracket;
    Whole(i, [RBracket] + s);
    IndexStep(x, inner, i, s);
    PostBracket(x, inner, e, s);
    assert Cur([LBracket] + inner) == LBracket;
    TermPosted(x, [LBracket] + inner);
    Joined(t, [LBracket] + (Print(i) + [RBracket]), s);
    Joined([LBracket], Print(i) + [RBracket], s);
    Joined(Print(i), [RBracket], s);
  }

  lemma {:induction false} PostedSlice(e: Expr, s: seq<Token>)
    requires e.Slice? && Writable(e) && Cur(s) != LParen
    ensures Postfix(Print(e) + s) == PostLoop(e, s)
    decreases e, 0
  {
    var x, lo, hi, t := e.x, e.low, e.high, Term(e.x, 10, false);
    var high := Optional([], hi);
    var more := high + ([RBracket] + s);
    var inner := Print(lo) + ([DotDot] + more);
    assert hi.Some? ==> high == Print(hi.value) by { if hi.Some? { assert [] + Print(hi.value) == Print(hi.value); } }
    hide Postfix, PostLoop, PostfixIndex, Pratt, Term, Optional, Print;
    assert Cur([DotDot] + more) == DotDot;
    Whole(lo, [DotDot] + more);
    if hi.Some? {
      FirstToken(hi.value);
      assert Cur([RBracket] + s) == RBracket && Cur(more) == Print(hi.value)[0];
      Whole(hi.value, [RBracket] + s);
    } else { SliceOpen(hi, s); }
    SliceStep(x, inner, lo, more, hi, s);
    PostBracket(x, inner, e, s);
    assert Cur([LBracket] + inner) == LBracket;
    TermPosted(x, [LBracket] + inner);
    SliceTokens(e, s);
  }

  lemma {:induction false} SliceOpen(hi: Option<Expr>, s: seq<Token>)
    requires hi.None?
    ensures Optional([], hi) + ([RBracket] + s) == [RBracket] + s
  {}

  lemma {:induction false} SliceTokens(e: Expr, s: seq<Token>)
    requires e.Slice?
    ensures Print(e) + s == Term(e.x, 10, false) +
      ([LBracket] + (Print(e.low) + ([DotDot] + (Optional([], e.high) + ([RBracket] + s)))))
  {
    var t, l, h := Term(e.x, 10, false), Print(e.low), Optional([], e.high);
    assert Print(e) == t + ([LBracket] + (l + ([DotDot] + (h + [RBracket]))));
    hide Print, Term, Optional;
    Joined(t, [LBracket] + (l + ([DotDot] + (h + [RBracket]))), s);
    Joined([LBracket], l + ([DotDot] + (h + [RBracket])), s);
    Joined(l, [DotDot] + (h + [RBracket]), s);
    Joined([DotDot], h + [RBracket], s);
    Joined(h, [RBracket], s);
  }

  /** Atoms, lists, comprehensions and calls. */
  lemma {:induction false} PrimaryParses(e: Expr, s: seq<Token>)
    requires Writable(e) && (e.Lit? || e.Var? || e.Param? || e.List? || e.Comp? || e.Call?) && Cur(s) != LParen
    ensures Primary(Print(e) + s) == Ok(e, s)
    decreases e, 1
  {
    hide ListOrComp, Pratt, ParseCall, ParseComp, Primary, Print, Commas, Optional, LikeComp;
    if e.List? {
      ListParses(e.elems, s);
      ListTokens(e, s);
      PrimaryBracket(Commas(e.elems) + ([RBracket] + s));
    } else if e.Comp? {
      CompParses(e, s);
      CompTokens(e, s);
      var ts := Print(e) + s;
      assert ts == [LBracket] + ts[1..];
      PrimaryBracket(ts[1..]);
    } else if e.Call? {
      CallParses(e, s);
      CallTokens(e, s);
      PrimaryCall(e.f, Print(e) + s);
    } else {
      AtomParses(e, s);
    }
  }

  lemma {:induction false} ListTokens(e: Expr, s: seq<Token>)
    requires e.List?
    ensures Print(e) + s == [LBracket] + (Commas(e.elems) + ([RBracket] + s))
  {
    hide Commas;
    Joined([LBracket], Commas(e.elems) + [RBracket], s);
    Joined(Commas(e.elems), [RBracket], s);
  }

  lemma {:induction false} AtomParses(e: Expr, s: seq<Token>)
    requires (e.Lit? || e.Var? || e.Param?) && Cur(s) != LParen
    ensures Primary(Print(e) + s) == Ok(e, s)
  {
    var ts := Print(e) + s;
    assert ts[1..] == s && Look(ts) == Cur(s);
    hide ListOrComp, Pratt, ParseCall;
  }

  lemma {:induction false} PrimaryBracket(ts: seq<Token>)
    ensures Primary([LBracket] + ts) == ListOrComp(ts)
  {
    assert ([LBracket] + ts)[1..] == ts;
    hide ListOrComp, Pratt, ParseCall;
  }

  lemma {:induction false} PrimaryCall(f: Name, ts: seq<Token>)
    requires |ts| >= 2 && ts[0] == NameToken(f) && ts[1] == LParen && (f.Reserved? ==> f.k !in TAKEN)
    ensures Primary(ts) == ParseCall(f, ts[2..])
  { hide ListOrComp, Pratt, ParseCall; }

  /** Expressions separated by commas, up to a closing token. */
  lemma {:induction false} ExprsParse(es: seq<Expr>, s: seq<Token>)
    requires es != [] && (forall i :: 0 <= i < |es| ==> Writable(es[i])) && (Cur(s) == RParen || Cur(s) == RBracket)
    ensures Exprs(Commas(es) + s) == OkList(es, s)
    decreases es, 0
  {
    hide Pratt, Print, Writable;
    if |es| == 1 {
      Whole(es[0], s);
      assert es == [es[0]];
    } else {
      var rest := Commas(es[1..]) + s;
      assert Cur([Comma] + rest) == Comma && ([Comma] + rest)[1..] == rest;
      Whole(es[0], [Comma] + rest);
      ExprsParse(es[1..], s);
      Joined(Print(es[0]), [Comma] + Commas(es[1..]), s);
      Joined([Comma], Commas(es[1..]), s);
      assert es == [es[0]] + es[1..];
      hide Exprs;
      ExprsStep(Commas(es) + s, es[0], rest, es[1..], s);
    }
  }

  lemma {:induction false} ExprsStep(ts: seq<Token>, e: Expr, rest: seq<Token>, es: seq<Expr>, s: seq<Token>)
    requires Pratt(ts, 1) == Ok(e, [Comma] + rest) && Exprs(rest) == OkList(es, s)
    ensures Exprs(ts) == OkList([e] + es, s)
  {
    assert ([Comma] + rest)[1..] == rest;
    hide Pratt;
  }

  lemma {:induction false} CommasFirst(es: seq<Expr>)
    requires es != [] && Writable(es[0])
    ensures Commas(es) != [] && Commas(es)[0] == Print(es[0])[0]
    ensures var t := Commas(es)[0]; t != RParen && t != RBracket && t != Star
  {
    FirstToken(es[0]);
    hide Print, Writable;
  }

  lemma {:induction false} ListParses(es: seq<Expr>, s: seq<Token>)
    requires (forall i :: 0 <= i < |es| ==> Writable(es[i])) && !LikeComp(Commas(es))
    ensures ListOrComp(Commas(es) + ([RBracket] + s)) == Ok(List(es), s)
    decreases es, 1
  {
    var c := [RBracket] + s;
    var ts := Commas(es) + c;
    assert c[1..] == s && Cur(c) == RBracket;
    if es == [] {
      assert ts == c;
    } else {
      CommasFirst(es);
      ExprsParse(es, c);
      hide Exprs, Commas, Pratt;
      assert ts[0] == Commas(es)[0];
      assert Look(ts) == if |Commas(es)| > 1 then Commas(es)[1] else RBracket;
    }
  }

  lemma {:induction false} OptionalParses(lead: Token, o: Option<Expr>, s: seq<Token>)
    requires (o.Some? ==> Writable(o.value)) && Closed(s) && (o.None? ==> Cur(s) != lead) && lead != EOF
    ensures ParseOptional(lead, Optional([lead], o) + s) == OkOption(o, s)
    decreases o, 1
  {
    hide Pratt, Print, LedPrec;
    var ts := Optional([lead], o) + s;
    if o.Some? {
      Whole(o.value, s);
      assert ts[1..] == Print(o.value) + s;
    } else { assert ts == s; }
  }

  lemma {:induction false} CompParses(e: Expr, s: seq<Token>)
    requires e.Comp? && Writable(e)
    ensures ParseComp(e.v,
      Print(e.src) + (Optional([Kw(KwWhere)], e.cond) + (Optional([Pipe], e.proj) + ([RBracket] + s)))) == Ok(e, s)
    decreases e, 0
  {
    var c := [RBracket] + s;
    var p := Optional([Pipe], e.proj) + c;
    var w := Optional([Kw(KwWhere)], e.cond) + p;
    assert c[1..] == s && Cur(c) == RBracket;
    assert Cur(p) == if e.proj.Some? then Pipe else RBracket;
    assert Cur(w) == if e.cond.Some? then Kw(KwWhere) else Cur(p);
    hide Pratt, Print, ParseOptional, Optional;
    Whole(e.src, w);
    OptionalParses(Kw(KwWhere), e.cond, p);
    OptionalParses(Pipe, e.proj, c);
  }

  lemma {:induction false} CompTokens(e: Expr, s: seq<Token>)
    requires e.Comp?
    ensures var inner := Print(e.src) +
      (Optional([Kw(KwWhere)], e.cond) + (Optional([Pipe], e.proj) + ([RBracket] + s)));
      var ts := Print(e) + s;
      ts != [] && ts[0] == LBracket && ListOrComp(ts[1..]) == ParseComp(e.v, inner)
  {
    var a, w, p := Print(e.src), Optional([Kw(KwWhere)], e.cond), Optional([Pipe], e.proj);
    var head, inner := [LBracket, Ident(e.v), Kw(KwIn)], a + (w + (p + ([RBracket] + s)));
    assert Print(e) == head + (a + (w + (p + [RBracket])));
    hide Print, Optional, ParseComp, Exprs;
    Joined(head, a + (w + (p + [RBracket])), s);
    Joined(a, w + (p + [RBracket]), s);
    Joined(w, p + [RBracket], s);
    Joined(p, [RBracket], s);
    var ts := Print(e) + s;
    assert ts == head + inner && ts[1..][2..] == inner && ts[1..][0] == Ident(e.v) && ts[1..][1] == Kw(KwIn);
  }

  lemma {:induction false} CallParses(e: Expr, s: seq<Token>)
    requires e.Call? && Writable(e)
    ensures ParseCall(e.f,
      (if e.distinct then [Kw(KwDistinct)] else []) +
        ((if e.star then [Star] else Commas(e.args)) + ([RParen] + s))) == Ok(e, s)
    decreases e, 0
  {
    var c := [RParen] + s;
    var body := (if e.star then [Star] else Commas(e.args)) + c;
    var ts := (if e.distinct then [Kw(KwDistinct)] else []) + body;
    assert c[1..] == s && Cur(c) == RParen;
    assert e.distinct ==> ts[1..] == body;
    assert !e.distinct ==> ts == body;
    if e.star {
      assert body[1..] == c && body[2..] == s;
    } else if e.args == [] {
      assert body == c;
    } else {
      CommasFirst(e.args);
      ExprsParse(e.args, c);
      hide Exprs, Commas;
      assert body[0] == Commas(e.args)[0];
    }
  }

  lemma {:induction false} CallTokens(e: Expr, s: seq<Token>)
    requires e.Call?
    ensures var inner := (if e.distinct then [Kw(KwDistinct)] else []) +
      ((if e.star then [Star] else Commas(e.args)) + ([RParen] + s));
      var ts := Print(e) + s;
      |ts| >= 2 && ts[0] == NameToken(e.f) && ts[1] == LParen && ts[2..] == inner
  {
    var d, a := if e.distinct then [Kw(KwDistinct)] else [], if e.star then [Star] else Commas(e.args);
    assert Print(e) == [NameToken(e.f), LParen] + (d + (a + [RParen]));
    hide Print, Commas;
    Joined([NameToken(e.f), LParen], d + (a + [RParen]), s);
    Joined(d, a + [RParen], s);
    Joined(a, [RParen], s);
  }

  /** Parsing the tokens of a printed expression gives that expression and nothing is left. */
  lemma {:induction false} RoundTrip(e: Expr)
    requires Writable(e)
    ensures Pratt(Print(e), 1) == Ok(e, [])
  {
    hide Print, Pratt, Writable;
    Whole(e, []);
    assert Print(e) + [] == Print(e);
  }

  // ---- expressions that do not read back --------------------------------------------------

  lemma {:induction false} VarTerm(n: Name, parent: nat, right: bool)
    requires parent < 11
    ensures Term(Var(n), parent, right) == [Ident(n)]
  {}

  lemma {:induction false} InTokens(x: Name, y: Name)
    ensures Print(Binary(In, Var(x), Var(y))) == [Ident(x), Kw(KwIn), Ident(y)]
  {
    VarTerm(x, 5, false);
    VarTerm(y, 5, true);
    hide Term;
    assert Print(Binary(In, Var(x), Var(y))) == [Ident(x)] + ([Kw(KwIn)] + [Ident(y)]);
  }

  /** `[x IN y]` as a list with one element reads back as a comprehension. */
  lemma {:induction false} ListBecomesComp(x: Name, y: Name)
    ensures var e := List([Binary(In, Var(x), Var(y))]); Pratt(Print(e), 1) == Ok(Comp(x, Var(y), None, None), [])
  {
    var e, c := List([Binary(In, Var(x), Var(y))]), Comp(x, Var(y), None, None);
    InTokens(x, y);
    assert Print(e) == [LBracket, Ident(x), Kw(KwIn), Ident(y), RBracket];
    assert Print(c) == [LBracket, Ident(x), Kw(KwIn), Ident(y), RBracket];
    hide Print, Pratt;
    RoundTrip(c);
  }

  /** A call named NOT reads back as a negation. */
  lemma {:induction false} CallBecomesNot(x: Name)
    ensures Pratt(Print(Call(Reserved(KwNot), false, false, [Var(x)])), 1) == Ok(Unary(Not, Var(x)), [])
  {
    hide Pratt, Prefix, Postfix, Primary, Loop, PostLoop;
    var ts := [LParen, Ident(x), RParen];
    assert Print(Call(Reserved(KwNot), false, false, [Var(x)])) == [Kw(KwNot)] + ts;
    assert [LParen] + (Print(Var(x)) + ([RParen] + [])) == ts;
    Parenthesized(Var(x), []);
    hide Print;
    PostfixStep(ts, Var(x), []);
    PostStops(Var(x), []);
    PrefixIsPostfix(ts);
    PrattStep(ts, 5, Var(x), []);
    LoopStops(Var(x), false, [], 5);
    PrefixUnary(Not, ts, Var(x), []);
    PrattStep([Kw(KwNot)] + ts, 1, Unary(Not, Var(x)), []);
    LoopStops(Unary(Not, Var(x)), false, [], 1);
  }

  /** The parser does produce such a list, from `[(x IN y)]`. */
  lemma {:induction false} ListProduced(x: Name, y: Name)
    ensures Pratt([LBracket, LParen, Ident(x), Kw(KwIn), Ident(y), RParen, RBracket], 1) ==
      Ok(List([Binary(In, Var(x), Var(y))]), [])
  {
    var e := Binary(In, Var(x), Var(y));
    InTokens(x, y);
    ParenListed(e);
    assert [LBracket] + ([LParen] + (Print(e) + [RParen, RBracket])) ==
      [LBracket, LParen, Ident(x), Kw(KwIn), Ident(y), RParen, RBracket];
  }

  /** A parenthesized element keeps a list a list. */
  lemma {:induction false} ParenListed(e: Expr)
    requires Writable(e)
    ensures Pratt([LBracket] + ([LParen] + (Print(e) + [RParen, RBracket])), 1) == Ok(List([e]), [])
  {
    var c: seq<Token> := [RBracket];
    var inner := [LParen] + (Print(e) + ([RParen] + c));
    assert [RParen] + c == [RParen, RBracket];
    Parenthesized(e, c);
    hide Print, Pratt, Prefix, Postfix, Primary, PostLoop, Loop, Writable, ListOrComp, Exprs;
    PostfixStep(inner, e, c);
    PostStops(e, c);
    PrefixIsPostfix(inner);
    PrattStep(inner, 1, e, c);
    LoopStops(e, false, c, 1);
    ExprsLast(inner, e, c);
    ListClosed(inner, [e]);
    var ts := [LBracket] + inner;
    PrimaryBracket(inner);
    PostfixStep(ts, List([e]), []);
    PostStops(List([e]), []);
    PrefixIsPostfix(ts);
    PrattStep(ts, 1, List([e]), []);
    LoopStops(List([e]), false, [], 1);
  }

  lemma {:induction false} ExprsLast(ts: seq<Token>, e: Expr, rest: seq<Token>)
    requires Pratt(ts, 1) == Ok(e, rest) && Cur(rest) != Comma
    ensures Exprs(ts) == OkList([e], rest)
  { hide Pratt; }

  lemma {:induction false} ListClosed(ts: seq<Token>, es: seq<Expr>)
    requires Cur(ts) == LParen && Exprs(ts) == OkList(es, [RBracket])
    ensures ListOrComp(ts) == Ok(List(es), [])
  { hide Exprs; }

  /** The parser does produce such a call, from a quoted name. */
  lemma {:induction false} CallProduced(x: Name)
    ensures Pratt([Ident(Reserved(KwNot)), LParen, Ident(x), RParen], 1) ==
      Ok(Call(Reserved(KwNot), false, false, [Var(x)]), [])
  {
    hide Pratt, Prefix, Postfix, Loop, PostLoop, Primary, Exprs;
    var args: seq<Token>, f := [Ident(x), RParen], Reserved(KwNot);
    var ts, e := [Ident(f), LParen] + args, Call(f, false, false, [Var(x)]);
    assert ts == [Ident(f), LParen, Ident(x), RParen];
    assert Print(Var(x)) + [RParen] == args;
    Whole(Var(x), [RParen]);
    hide Print;
    ExprsLast(args, Var(x), [RParen]);
    QuotedCall(f, args, [Var(x)]);
    PostfixStep(ts, e, []);
    PostStops(e, []);
    PrefixIsPostfix(ts);
    PrattStep(ts, 1, e, []);
    LoopStops(e, false, [], 1);
  }

  lemma {:induction false} QuotedCall(f: Name, ts: seq<Token>, es: seq<Expr>)
    requires Cur(ts).Ident? && Exprs(ts) == OkList(es, [RParen])
    ensures Primary([Ident(f), LParen] + ts) == Ok(Call(f, false, false, es), [])
  {
    hide Exprs, Pratt, ListOrComp;
    assert ([Ident(f), LParen] + ts)[2..] == ts;
    assert ParseCall(f, ts) == Ok(Call(f, false, false, es), []);
    hide ParseCall;
  }
}
