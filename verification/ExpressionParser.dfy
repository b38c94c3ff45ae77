/** The parser as it runs: a position in the tokens and an error that sticks. */
module ExpressionParser {
  import opened Options
  import opened Expressions
  import opened ExpressionGrammar

  const NOTHING: Expr := Lit(NullLit)

  class Parser {
    const toks: seq<Token>
    var i: nat
    var failed: bool

    constructor (toks: seq<Token>)
      ensures this.toks == toks && i == 0 && !failed && Valid()
    {
      this.toks := toks;
      i, failed := 0, false;
    }

    ghost predicate Valid() reads this { i <= |toks| }

    ghost function Ahead(): seq<Token>
      reads this
      requires Valid()
    { toks[i..] }

    /** The outcome of a call that parsed e, or failed, from ts. */
    ghost predicate Did(ts: seq<Token>, e: Expr, r: Parsed) reads this {
      Valid() && (failed <==> r.Fail?) && (!failed ==> r == Ok(e, Ahead()) && |Ahead()| <= |ts|)
    }

    function At(k: nat): (t: Token)
      reads this
      requires Valid()
      ensures k == 0 ==> t == Cur(Ahead())
      ensures k == 1 ==> t == Look(Ahead())
    { if i + k < |toks| then toks[i + k] else EOF }

    method Advance(k: nat)
      requires Valid() && i + k <= |toks|
      modifies this`i
      ensures Valid() && Ahead() == old(Ahead())[k..]
    { i := i + k; }

    /** expect; a mismatch is an error. */
    method Expect(t: Token) returns (ok: bool)
      requires Valid() && t != EOF
      modifies this`i, this`failed
      ensures Valid() && ok == (Cur(old(Ahead())) == t)
      ensures ok ==> failed == old(failed) && old(Ahead()) != [] && Ahead() == old(Ahead())[1..]
      ensures !ok ==> failed && i == old(i)
    {
      ok := At(0) == t;
      if ok { Advance(1); } else { failed := true; }
    }

    method ParsePratt(floor: nat) returns (left: Expr)
      requires Valid() && !failed
      modifies this`i, this`failed
      ensures Did(old(Ahead()), left, Pratt(old(Ahead()), floor))
      ensures floor >= 1 && !failed ==> Derives(floor, old(Ahead()), Ahead(), left)
      decreases |toks| - i, 4
    {
      hide Prefix, ApplyLed, LedPrec, Derives;
      ghost var ts := Ahead();
      if floor >= 1 && Pratt(ts, floor).Ok? { PrattDerives(ts, floor); }
      left := ParsePrefix();
      var prevCmp := false;
      while !failed
        invariant Valid() && (!failed ==> |Ahead()| < |ts| && Pratt(ts, floor) == Loop(left, prevCmp, Ahead(), floor))
        invariant failed ==> Pratt(ts, floor).Fail?
        decreases if failed then 0 else |toks| - i + 1
      {
        var p := LedPrec(At(0));
        if p == 0 || p < floor { break; }
        if prevCmp && p == 5 { failed := true; return; }
        left := ParseLed(left);
        prevCmp := p == 5;
      }
    }

    method ParsePrefix() returns (e: Expr)
      requires Valid() && !failed
      modifies this`i, this`failed
      ensures Did(old(Ahead()), e, Prefix(old(Ahead()))) && (!failed ==> |Ahead()| < |old(Ahead())|)
      decreases |toks| - i, 3
    {
      hide Derives, Pratt, Postfix;
      var t := At(0);
      if t == Kw(KwNot) || t == Plus || t == Minus {
        Advance(1);
        e := ParsePratt(if t == Kw(KwNot) then 5 else 9);
        e := Unary(if t == Kw(KwNot) then Not else if t == Plus then Pos else Neg, e);
      } else {
        e := ParsePostfix();
      }
    }

    /** applyLed, compTail and pinBinary. */
    method ParseLed(left: Expr) returns (e: Expr)
      requires Valid() && !failed && LedPrec(Cur(Ahead())) > 0
      modifies this`i, this`failed
      ensures Did(old(Ahead()), e, ApplyLed(left, old(Ahead()))) && (!failed ==> |Ahead()| < |old(Ahead())|)
      decreases |toks| - i, 0
    {
      hide Derives, Pratt, ParsePred;
      var t := At(0);
      var p := LedPrec(t);
      e := left;
      if t == Kw(KwIs) {
        Advance(1);
        e := ParseIs(left);
        return;
      }
      if t == Kw(KwStarts) || t == Kw(KwEnds) {
        if At(1) != Kw(KwWith) { failed := true; return; }
        Advance(2);
      } else {
        Advance(1);
      }
      var right := ParsePratt(if p == 9 then 9 else p + 1);
      if !failed { e := Binary(LedOp(t), left, right); }
    }

    method ParseIs(left: Expr) returns (e: Expr)
      requires Valid() && !failed
      modifies this`i, this`failed
      ensures Did(old(Ahead()), e, ParsePred(left, old(Ahead())))
    {
      e := left;
      var neg := At(0) == Kw(KwNot);
      if neg { Advance(1); }
      if At(0) == ColonColon {
        if !IsName(At(1)) { failed := true; return; }
        e := Pred(left, neg, Some(NameOf(At(1))));
        Advance(2);
        return;
      }
      var ok := Expect(Kw(KwNull));
      if ok { e := Pred(left, neg, None); }
    }

    method ParsePostfix() returns (e: Expr)
      requires Valid() && !failed
      modifies this`i, this`failed
      ensures Did(old(Ahead()), e, Postfix(old(Ahead()))) && (!failed ==> |Ahead()| < |old(Ahead())|)
      decreases |toks| - i, 2
    {
      hide Primary, PostfixIndex;
      ghost var ts := Ahead();
      e := ParsePrimary();
      while !failed
        invariant Valid() && (!failed ==> |Ahead()| < |ts| && Postfix(ts) == PostLoop(e, Ahead()))
        invariant failed ==> Postfix(ts).Fail?
        decreases if failed then 0 else |toks| - i + 1
      {
        if At(0) == Dot {
          if !IsName(At(1)) { failed := true; return; }
          e := Property(e, NameOf(At(1)));
          Advance(2);
        } else if At(0) == LBracket {
          e := ParseIndex(e);
        } else {
          return;
        }
      }
    }

    method ParseIndex(x: Expr) returns (e: Expr)
      requires Valid() && !failed && Ahead() != []
      modifies this`i, this`failed
      ensures Did(old(Ahead()), e, PostfixIndex(x, old(Ahead()))) && (!failed ==> |Ahead()| < |old(Ahead())|)
      decreases |toks| - i, 0
    {
      hide Derives, Pratt, SliceEnd;
      e := x;
      Advance(1);
      var low := ParsePratt(1);
      if failed { return; }
      if At(0) == DotDot {
        Advance(1);
        e := ParseSliceEnd(x, low);
        return;
      }
      var _ := Expect(RBracket);
      return Index(x, low);
    }

    method ParseSliceEnd(x: Expr, low: Expr) returns (e: Expr)
      requires Valid() && !failed
      modifies this`i, this`failed
      ensures Did(old(Ahead()), e, SliceEnd(x, low, old(Ahead())))
      decreases |toks| - i, 5
    {
      hide Derives, Pratt, SliceEnd;
      e := x;
      SliceEndCases(x, low, Ahead());
      if At(0) == RBracket {
        Advance(1);
        return Slice(x, low, None);
      }
      var high := ParsePratt(1);
      if failed { return; }
      var _ := Expect(RBracket);
      return Slice(x, low, Some(high));
    }

    method ParsePrimary() returns (e: Expr)
      requires Valid() && !failed
      modifies this`i, this`failed
      ensures Did(old(Ahead()), e, Primary(old(Ahead()))) && (!failed ==> |Ahead()| < |old(Ahead())|)
      decreases |toks| - i, 1
    {
      hide Derives, Pratt, ListOrComp, ParseCall;
      e := NOTHING;
      match At(0) {
        case IntTok(n) => Advance(1); e := Lit(IntLit(n));
        case FloatTok(f) => Advance(1); e := Lit(FloatLit(f));
        case StringTok(s) => Advance(1); e := Lit(StringLit(s));
        case ParamTok(p) => Advance(1); e := Param(p);
        case LParen =>
          Advance(1);
          e := ParsePratt(1);
          if !failed { var _ := Expect(RParen); }
        case LBracket =>
          Advance(1);
          e := ParseListOrComp();
        case Ident(n) =>
          if At(1) == LParen { Advance(2); e := ParseCallExpr(n); }
          else { Advance(1); e := Var(n); }
        case Kw(k) =>
          if LiteralKeyword(k).Some? { Advance(1); e := Lit(LiteralKeyword(k).value); }
          else if k in QUANTIFIERS || At(1) != LParen { failed := true; }
          else { Advance(2); e := ParseCallExpr(Reserved(k)); }
        case _ => failed := true;
      }
    }

    /** The loop over expressions separated by commas. */
    method ParseExprs() returns (es: seq<Expr>)
      requires Valid() && !failed
      modifies this`i, this`failed
      ensures Valid() && (failed <==> Exprs(old(Ahead())).FailList?)
      ensures !failed ==> Exprs(old(Ahead())) == OkList(es, Ahead()) && |Ahead()| < |old(Ahead())|
      decreases |toks| - i, 5
    {
      hide Derives, Pratt;
      ghost var ts := Ahead();
      es := [];
      while true
        invariant Valid() && !failed && |Ahead()| <= |ts| && Exprs(ts) == Before(es, Exprs(Ahead()))
        decreases |toks| - i
      {
        ghost var here, done := Ahead(), es;
        var e := ParsePratt(1);
        if failed { return; }
        es := es + [e];
        if At(0) != Comma {
          assert Before(done, OkList([e], Ahead())) == OkList(es, Ahead());
          return;
        }
        Advance(1);
        BeforeMore(done, e, Exprs(Ahead()));
      }
    }

    method ParseCallExpr(f: Name) returns (e: Expr)
      requires Valid() && !failed
      modifies this`i, this`failed
      ensures Did(old(Ahead()), e, ParseCall(f, old(Ahead())))
      decreases |toks| - i, 7
    {
      hide CallArgs;
      var distinct := At(0) == Kw(KwDistinct);
      if distinct { Advance(1); }
      e := ParseArgs(f, distinct);
    }

    method ParseArgs(f: Name, distinct: bool) returns (e: Expr)
      requires Valid() && !failed
      modifies this`i, this`failed
      ensures Did(old(Ahead()), e, CallArgs(f, distinct, old(Ahead())))
      decreases |toks| - i, 6
    {
      hide Exprs;
      e := NOTHING;
      if At(0) == Star {
        Advance(1);
        var _ := Expect(RParen);
        return Call(f, distinct, true, []);
      }
      var args := [];
      if At(0) != RParen {
        args := ParseExprs();
        if failed { return; }
      }
      var _ := Expect(RParen);
      return Call(f, distinct, false, args);
    }

    method ParseListOrComp() returns (e: Expr)
      requires Valid() && !failed
      modifies this`i, this`failed
      ensures Did(old(Ahead()), e, ListOrComp(old(Ahead())))
      decreases |toks| - i, 7
    {
      hide Exprs, ParseComp;
      e := NOTHING;
      if At(0).Ident? && At(1) == Kw(KwIn) {
        var v := At(0).n;
        Advance(2);
        e := ParseComprehension(v);
        return;
      }
      var elems := [];
      if At(0) != RBracket {
        elems := ParseExprs();
        if failed { return; }
      }
      var _ := Expect(RBracket);
      return List(elems);
    }

    method ParseComprehension(v: Name) returns (e: Expr)
      requires Valid() && !failed
      modifies this`i, this`failed
      ensures Did(old(Ahead()), e, ParseComp(v, old(Ahead())))
      decreases |toks| - i, 6
    {
      hide Derives, Pratt, ParseOptional;
      e := NOTHING;
      var src := ParsePratt(1);
      if failed { return; }
      var cond := ParseClause(Kw(KwWhere));
      if failed { return; }
      var proj := ParseClause(Pipe);
      if failed { return; }
      var _ := Expect(RBracket);
      return Comp(v, src, cond, proj);
    }

    /** WHERE or | and its expression, if it is there. */
    method ParseClause(lead: Token) returns (o: Option<Expr>)
      requires Valid() && !failed && lead != EOF
      modifies this`i, this`failed
      ensures Valid() && (failed <==> ParseOptional(lead, old(Ahead())).FailOption?)
      ensures !failed ==> ParseOptional(lead, old(Ahead())) == OkOption(o, Ahead())
      decreases |toks| - i, 5
    {
      hide Derives, Pratt;
      o := None;
      if At(0) == lead {
        Advance(1);
        var e := ParsePratt(1);
        o := Some(e);
      }
    }
  }

  lemma {:induction false} SliceEndCases(x: Expr, low: Expr, ts: seq<Token>)
    ensures Cur(ts) == RBracket ==> SliceEnd(x, low, ts) == Ok(Slice(x, low, None), ts[1..])
    ensures Cur(ts) != RBracket && (Pratt(ts, 1).Fail? || Cur(Pratt(ts, 1).rest) != RBracket) ==>
      SliceEnd(x, low, ts) == Fail
    ensures Cur(ts) != RBracket && Pratt(ts, 1).Ok? && Cur(Pratt(ts, 1).rest) == RBracket ==>
      SliceEnd(x, low, ts) == Ok(Slice(x, low, Some(Pratt(ts, 1).e)), Pratt(ts, 1).rest[1..])
  { hide Pratt; }

  /** Expressions parsed before the rest of a list. */
  function Before(es: seq<Expr>, r: ParsedList): ParsedList {
    if r.FailList? then FailList else OkList(es + r.es, r.more)
  }

  lemma {:induction false} BeforeMore(es: seq<Expr>, e: Expr, r: ParsedList)
    ensures Before(es + [e], r) == Before(es, if r.FailList? then FailList else OkList([e] + r.es, r.more))
  {
    if r.OkList? { assert es + [e] + r.es == es + ([e] + r.es); }
  }
}
