/**
 * The grammar of expressions, written without the parser, and that the parser
 * accepts exactly its texts and groups them as it says.
 *
 * From loosest to tightest: OR, XOR, AND, NOT, comparisons and tests, + and -, the
 * three of * / %, signs, ^. Operators of one level group to the left, ^ to the
 * right, and comparisons do not chain. A prefix takes everything behind it that
 * binds tighter than it does.
 */
module ExpressionGrammar {
  import opened Options
  import opened Expressions

  /** An expression as it is written, with its parentheses. */
  datatype Tree =
    | Word(t: Token)
    | Parens(x: Tree)
    | Prefixed(t: Token, x: Tree)
    | Infix(left: Tree, op: seq<Token>, right: Tree)
    | Tested(x: Tree, tail: seq<Token>)
    | Member(x: Tree, name: Token)
    | Subscript(x: Tree, at: Tree)
    | Sliced(x: Tree, low: Tree, high: Option<Tree>)
    | Listed(xs: seq<Tree>)
    | Comprehended(v: Token, src: Tree, cond: Option<Tree>, proj: Option<Tree>)
    | Applied(f: Token, distinct: bool, star: bool, args: seq<Tree>)

  // ---- tokens -----------------------------------------------------------------------------

  /** What the tokens of a binary operator stand for. */
  predicate OpMeans(op: seq<Token>, o: BinaryOp) {
    match o
    case Or => op == [Kw(KwOr)]
    case Xor => op == [Kw(KwXor)]
    case And => op == [Kw(KwAnd)]
    case Eq => op == [EqTok]
    case Ne => op == [NotEqTok]
    case Lt => op == [LtTok]
    case Gt => op == [GtTok]
    case Le => op == [LtEqTok]
    case Ge => op == [GtEqTok]
    case In => op == [Kw(KwIn)]
    case StartsWith => op == [Kw(KwStarts), Kw(KwWith)]
    case EndsWith => op == [Kw(KwEnds), Kw(KwWith)]
    case Contains => op == [Kw(KwContains)]
    case Add => op == [Plus]
    case Sub => op == [Minus]
    case Mul => op == [Star]
    case Div => op == [Slash]
    case Mod => op == [Percent]
    case Pow => op == [Caret]
  }

  /** The level of an operator, 0 for other tokens. NOT is 4 and a sign 8. */
  function Level(op: seq<Token>): nat {
    if |op| == 1 then
      match op[0]
      case Kw(KwOr) => 1 case Kw(KwXor) => 2 case Kw(KwAnd) => 3
      case EqTok => 5 case NotEqTok => 5 case LtTok => 5 case GtTok => 5 case LtEqTok => 5 case GtEqTok => 5
      case Kw(KwIn) => 5 case Kw(KwContains) => 5
      case Plus => 6 case Minus => 6 case Star => 7 case Slash => 7 case Percent => 7 case Caret => 9
      case _ => 0
    else if |op| == 2 && (op[0] == Kw(KwStarts) || op[0] == Kw(KwEnds)) && op[1] == Kw(KwWith) then 5
    else 0
  }

  /** The level of the operator or test that a text goes on with, 0 if it does not. */
  function Next(ts: seq<Token>): nat {
    match Cur(ts)
    case Kw(KwOr) => 1 case Kw(KwXor) => 2 case Kw(KwAnd) => 3
    case EqTok => 5 case NotEqTok => 5 case LtTok => 5 case GtTok => 5 case LtEqTok => 5 case GtEqTok => 5
    case Kw(KwIn) => 5 case Kw(KwContains) => 5 case Kw(KwStarts) => 5 case Kw(KwEnds) => 5 case Kw(KwIs) => 5
    case Plus => 6 case Minus => 6 case Star => 7 case Slash => 7 case Percent => 7 case Caret => 9
    case _ => 0
  }

  predicate NameMeans(t: Token, n: Name) { t == Ident(n) || (t.Kw? && n == Reserved(t.k)) }

  predicate PrefixMeans(t: Token, u: UnaryOp) {
    (t == Kw(KwNot) && u == Not) || (t == Plus && u == Pos) || (t == Minus && u == Neg)
  }

  /** IS NULL, IS :: T, and both with NOT. */
  predicate TestMeans(tail: seq<Token>, negated: bool, typ: Option<Name>) {
    if negated then
      |tail| >= 3 && tail[0] == Kw(KwIs) && tail[1] == Kw(KwNot) && TypeMeans(tail[2..], typ)
    else |tail| >= 2 && tail[0] == Kw(KwIs) && TypeMeans(tail[1..], typ)
  }

  predicate TypeMeans(tail: seq<Token>, typ: Option<Name>) {
    match typ
    case None => tail == [Kw(KwNull)]
    case Some(n) => |tail| == 2 && tail[0] == ColonColon && NameMeans(tail[1], n)
  }

  predicate WordMeans(t: Token, e: Expr) {
    match t
    case IntTok(i) => e == Lit(IntLit(i))
    case FloatTok(f) => e == Lit(FloatLit(f))
    case StringTok(s) => e == Lit(StringLit(s))
    case ParamTok(p) => e == Param(p)
    case Ident(n) => e == Var(n)
    case Kw(KwNull) => e == Lit(NullLit)
    case Kw(KwTrue) => e == Lit(BoolLit(true))
    case Kw(KwFalse) => e == Lit(BoolLit(false))
    case Kw(KwNan) => e == Lit(NaNLit)
    case Kw(KwInf) => e == Lit(InfLit)
    case _ => false
  }

  // ---- texts and meanings -------------------------------------------------------------------

  /** What is left of a text that starts with t. */
  function Skip(t: Token, ts: seq<Token>): Option<seq<Token>> {
    if ts != [] && ts[0] == t then Some(ts[1..]) else None
  }

  /** What is left of ts after the text of c, if it starts with that. A name in front
      of a parenthesis is a call, a name and IN behind a bracket start a
      comprehension, and DISTINCT behind a parenthesis belongs to the call. */
  function After(c: Tree, ts: seq<Token>): Option<seq<Token>>
    decreases c, 0
  {
    match c
    case Word(t) => if t.Ident? && Look(ts) == LParen then None else Skip(t, ts)
    case Parens(x) => Closed(x, LParen, RParen, ts)
    case Prefixed(t, x) => (match Skip(t, ts) case None => None case Some(a) => After(x, a))
    case Infix(x, op, y) => (
      match After(x, ts)
      case None => None
      case Some(a) => if op <= a then After(y, a[|op|..]) else None)
    case Tested(x, tail) => (
      match After(x, ts)
      case None => None
      case Some(a) => if tail <= a then Some(a[|tail|..]) else None)
    case Member(x, name) => (
      match After(x, ts)
      case None => None
      case Some(a) => if [Dot, name] <= a then Some(a[2..]) else None)
    case Subscript(x, i) => (
      match After(x, ts)
      case None => None
      case Some(a) => Closed(i, LBracket, RBracket, a))
    case Sliced(x, low, high) => (
      match After(x, ts)
      case None => None
      case Some(a) =>
        match Closed(low, LBracket, DotDot, a)
        case None => None
        case Some(b) =>
          if high.None? then Skip(RBracket, b)
          else match After(high.value, b)
            case None => None
            case Some(d) => Skip(RBracket, d))
    case Listed(xs) => (
      match Skip(LBracket, ts)
      case None => None
      case Some(a) => if xs != [] && Cur(a).Ident? && Look(a) == Kw(KwIn) then None else AfterAll(xs, RBracket, a))
    case Comprehended(v, src, cond, proj) =>
      if !([LBracket, v, Kw(KwIn)] <= ts) then None
      else (
        match After(src, ts[3..])
        case None => None
        case Some(a) =>
          match AfterOption(Kw(KwWhere), cond, a)
          case None => None
          case Some(b) =>
            match AfterOption(Pipe, proj, b)
            case None => None
            case Some(d) => Skip(RBracket, d))
    case Applied(f, distinct, star, args) =>
      if !([f, LParen] <= ts) || distinct != (Cur(ts[2..]) == Kw(KwDistinct)) then None
      else
        var a := if distinct then ts[3..] else ts[2..];
        if star then (if [Star, RParen] <= a then Some(a[2..]) else None) else AfterAll(args, RParen, a)
  }

  /** x between two tokens. */
  function Closed(x: Tree, open: Token, close: Token, ts: seq<Token>): Option<seq<Token>>
    decreases x, 1
  {
    match Skip(open, ts)
    case None => None
    case Some(a) => match After(x, a) case None => None case Some(b) => Skip(close, b)
  }

  function AfterOption(lead: Token, o: Option<Tree>, ts: seq<Token>): Option<seq<Token>>
    decreases o, 1
  {
    if o.None? then Some(ts) else match Skip(lead, ts) case None => None case Some(a) => After(o.value, a)
  }

  /** Trees separated by commas, up to the closing token. */
  function AfterAll(xs: seq<Tree>, close: Token, ts: seq<Token>): Option<seq<Token>>
    decreases xs, 0
  {
    if xs == [] then Skip(close, ts)
    else match After(xs[0], ts)
      case None => None
      case Some(a) =>
        if |xs| == 1 then Skip(close, a)
        else match Skip(Comma, a) case None => None case Some(b) => AfterAll(xs[1..], close, b)
  }

  /** The expression that a tree stands for. */
  predicate Means(c: Tree, e: Expr)
    decreases c, 0
  {
    match c
    case Word(t) => WordMeans(t, e)
    case Parens(x) => Means(x, e)
    case Prefixed(t, x) => e.Unary? && PrefixMeans(t, e.u) && Means(x, e.x)
    case Infix(x, op, y) => e.Binary? && OpMeans(op, e.op) && Means(x, e.left) && Means(y, e.right)
    case Tested(x, tail) => e.Pred? && TestMeans(tail, e.negated, e.typ) && Means(x, e.x)
    case Member(x, name) => e.Property? && NameMeans(name, e.n) && Means(x, e.x)
    case Subscript(x, i) => e.Index? && Means(x, e.x) && Means(i, e.index)
    case Sliced(x, low, high) => e.Slice? && Means(x, e.x) && Means(low, e.low) && MeansOption(high, e.high)
    case Listed(xs) => e.List? && MeansAll(xs, e.elems)
    case Comprehended(v, src, cond, proj) =>
      e.Comp? && v == Ident(e.v) && Means(src, e.src) && MeansOption(cond, e.cond) && MeansOption(proj, e.proj)
    case Applied(f, distinct, star, args) =>
      && e.Call? && NameMeans(f, e.f) && e.distinct == distinct && e.star == star && (star ==> args == [])
      && MeansAll(args, e.args)
  }

  predicate MeansOption(c: Option<Tree>, e: Option<Expr>)
    decreases c, 1
  { if c.None? then e.None? else e.Some? && Means(c.value, e.value) }

  predicate MeansAll(xs: seq<Tree>, es: seq<Expr>)
    decreases xs, 0
  { if xs == [] then es == [] else es != [] && Means(xs[0], es[0]) && MeansAll(xs[1..], es[1..]) }

  // ---- grouping -----------------------------------------------------------------------------

  /** The loosest level of what an operator takes on its right. */
  function RightFloor(p: nat): nat { if p == 9 then 9 else p + 1 }

  predicate Comparison(c: Tree) { c.Tested? || (c.Infix? && Level(c.op) == 5) }

  predicate Operand(c: Tree) { !c.Prefixed? && !c.Infix? && !c.Tested? }

  /** c groups as the levels say where nothing looser than `floor` may stand and an
      operator of level `next` follows. */
  predicate Grouped(c: Tree, floor: nat, next: nat)
    decreases c
  {
    match c
    case Word(_) => true
    case Parens(x) => Grouped(x, 1, 0)
    case Prefixed(t, x) =>
      if t == Kw(KwNot) then next < 5 && Grouped(x, 5, next) else next < 9 && Grouped(x, 9, next)
    case Infix(x, op, y) =>
      var p := Level(op);
      && floor <= p && next < RightFloor(p) && (p == 5 ==> !Comparison(x))
      && Grouped(x, floor, p) && Grouped(y, RightFloor(p), next)
    case Tested(x, _) => floor <= 5 && !Comparison(x) && Grouped(x, floor, 5)
    case Member(x, _) => Operand(x) && Grouped(x, 1, 0)
    case Subscript(x, i) => Operand(x) && Grouped(x, 1, 0) && Grouped(i, 1, 0)
    case Sliced(x, low, high) =>
      Operand(x) && Grouped(x, 1, 0) && Grouped(low, 1, 0) && (high.Some? ==> Grouped(high.value, 1, 0))
    case Listed(xs) => forall i :: 0 <= i < |xs| ==> Grouped(xs[i], 1, 0)
    case Comprehended(_, src, cond, proj) =>
      && Grouped(src, 1, 0) && (cond.Some? ==> Grouped(cond.value, 1, 0)) && (proj.Some? ==> Grouped(proj.value, 1, 0))
    case Applied(f, _, _, args) =>
      && (f.Kw? ==> f.k !in {KwNot, KwNull, KwTrue, KwFalse, KwNan, KwInf, KwAny, KwAll, KwNone, KwSingle, KwReduce,
                             KwCase})
      && forall i :: 0 <= i < |args| ==> Grouped(args[i], 1, 0)
  }

  /** A text derives an expression from a level on, in front of what is left of it. */
  ghost predicate Derives(floor: nat, ts: seq<Token>, rest: seq<Token>, e: Expr) {
    exists c :: Derivation(c, floor, ts, rest, e)
  }

  predicate Derivation(c: Tree, floor: nat, ts: seq<Token>, rest: seq<Token>, e: Expr) {
    After(c, ts) == Some(rest) && Means(c, e) && Grouped(c, floor, Next(rest))
  }

  // ---- the tables of the parser ---------------------------------------------------------------

  lemma {:induction false} NextIsLed(ts: seq<Token>)
    ensures Next(ts) == LedPrec(Cur(ts))
  {}

  /** The operator tokens at the front of a text, as the parser takes them. */
  function OpAt(ts: seq<Token>): seq<Token>
    requires ts != []
  { if (ts[0] == Kw(KwStarts) || ts[0] == Kw(KwEnds)) && Look(ts) == Kw(KwWith) then ts[..2] else ts[..1] }

  lemma {:induction false} LedMeans(ts: seq<Token>)
    requires LedPrec(Cur(ts)) > 0 && ts[0] != Kw(KwIs)
    requires (ts[0] == Kw(KwStarts) || ts[0] == Kw(KwEnds)) ==> Look(ts) == Kw(KwWith)
    ensures OpMeans(OpAt(ts), LedOp(ts[0])) && Level(OpAt(ts)) == LedPrec(ts[0])
  {
    assert OpAt(ts)[0] == ts[0];
  }

  /** Tokens that mean an operator are the ones that the parser knows. */
  lemma {:induction false} OpRead(op: seq<Token>, o: BinaryOp, ts: seq<Token>)
    requires OpMeans(op, o) && op <= ts
    ensures ts != [] && OpAt(ts) == op && LedPrec(ts[0]) == Level(op) > 0 && LedOp(ts[0]) == o && ts[0] != Kw(KwIs)
    ensures (ts[0] == Kw(KwStarts) || ts[0] == Kw(KwEnds)) ==> Look(ts) == Kw(KwWith)
    ensures ts[0] != Dot && ts[0] != LBracket && Next(ts) == Level(op)
  {
    OpTable(op, o);
    hide OpMeans, Level, LedPrec, LedOp;
    assert ts[0] == op[0];
    if |op| == 2 { assert ts[1] == op[1] && ts[..2] == op; } else { assert ts[..1] == op; }
    NextIsLed(ts);
    hide Next;
  }

  lemma {:induction false} OpTable(op: seq<Token>, o: BinaryOp)
    requires OpMeans(op, o)
    ensures 1 <= |op| <= 2 && LedPrec(op[0]) == Level(op) > 0 && LedOp(op[0]) == o
    ensures op[0] != Kw(KwIs) && op[0] != Dot && op[0] != LBracket
    ensures |op| == 2 <==> op[0] == Kw(KwStarts) || op[0] == Kw(KwEnds)
    ensures |op| == 2 ==> op[1] == Kw(KwWith)
  {}

  // ---- what the parser accepts is grouped by the grammar --------------------------------------

  /** The parser stops in front of a token that does not belong to the expression. */
  lemma {:induction false} LoopEnds(left: Expr, c: bool, ts: seq<Token>, f: nat)
    requires Loop(left, c, ts, f).Ok?
    ensures var n := Next(Loop(left, c, ts, f).rest); n == 0 || n < f
    decreases |ts|
  {
    NextIsLed(ts);
    hide ApplyLed, Next;
    if LedPrec(Cur(ts)) != 0 && LedPrec(Cur(ts)) >= f {
      var r := ApplyLed(left, ts);
      LoopEnds(r.e, LedPrec(Cur(ts)) == 5, r.rest, f);
    }
  }

  lemma {:induction false} PrattSound(ts: seq<Token>, f: nat) returns (c: Tree)
    requires f >= 1 && Pratt(ts, f).Ok?
    ensures var r := Pratt(ts, f); Derivation(c, f, ts, r.rest, r.e) && Next(r.rest) < f
    decreases |ts|, 6
  {
    hide Prefix, Loop, After, Means, Grouped, Next;
    var p := Prefix(ts);
    var d := PrefixSound(ts);
    c := LoopSound(ts, d, p.e, false, p.rest, f);
    LoopEnds(p.e, false, p.rest, f);
  }

  /** A tree that may stand on the left of whatever follows it in the loop. */
  predicate LeftOf(c: Tree, f: nat, cmp: bool, next: nat) {
    Grouped(c, f, next) && (Comparison(c) ==> cmp)
  }

  lemma {:induction false} LoopSound(ts: seq<Token>, left: Tree, e: Expr, cmp: bool, s: seq<Token>, f: nat)
    returns (c: Tree)
    requires f >= 1 && After(left, ts) == Some(s) && Means(left, e) && LeftOf(left, f, cmp, Next(s))
    requires Loop(e, cmp, s, f).Ok? && |s| < |ts|
    ensures var r := Loop(e, cmp, s, f); Derivation(c, f, ts, r.rest, r.e)
    decreases |s|, 2
  {
    NextIsLed(s);
    hide ApplyLed, Next, LedPrec, After, Means, Grouped, Comparison;
    var p := LedPrec(Cur(s));
    if p == 0 || p < f {
      c := left;
    } else {
      var r := ApplyLed(e, s);
      var d := LedSound(ts, left, e, cmp, s, f);
      c := LoopSound(ts, d, r.e, p == 5, r.rest, f);
    }
  }

  lemma {:induction false} LedSound(ts: seq<Token>, left: Tree, e: Expr, cmp: bool, s: seq<Token>, f: nat)
    returns (c: Tree)
    requires f >= 1 && After(left, ts) == Some(s) && Means(left, e) && LeftOf(left, f, cmp, Next(s))
    requires LedPrec(Cur(s)) > 0 && f <= LedPrec(Cur(s)) && !(cmp && LedPrec(Cur(s)) == 5) && ApplyLed(e, s).Ok?
    ensures var r := ApplyLed(e, s);
      After(c, ts) == Some(r.rest) && Means(c, r.e) && LeftOf(c, f, LedPrec(Cur(s)) == 5, Next(r.rest))
    decreases |s|, 1
  {
    hide After, Means, Grouped, Next, LedPrec, Level, Comparison;
    NextIsLed(s);
    if s[0] == Kw(KwIs) {
      IsLevel();
      c := TestSound(ts, left, e, s, f);
      TestedLeft(c, f, ParsePred(e, s[1..]).rest);
    } else {
      LedOk(e, s);
      c := InfixSound(ts, left, e, s, f);
      hide Pratt, LedOp;
      InfixLeft(c, LedPrec(s[0]));
    }
  }

  /** An operator and its right operand. */
  lemma {:induction false} InfixSound(ts: seq<Token>, left: Tree, e: Expr, s: seq<Token>, f: nat) returns (c: Tree)
    requires f >= 1 && After(left, ts) == Some(s) && Means(left, e) && Grouped(left, f, Next(s))
    requires s != [] && LedPrec(s[0]) > 0 && f <= LedPrec(s[0]) && s[0] != Kw(KwIs)
    requires LedPrec(s[0]) == 5 ==> !Comparison(left)
    requires (s[0] == Kw(KwStarts) || s[0] == Kw(KwEnds)) ==> Look(s) == Kw(KwWith)
    requires Pratt(s[|OpAt(s)|..], RightFloor(LedPrec(s[0]))).Ok?
    ensures var r := Pratt(s[|OpAt(s)|..], RightFloor(LedPrec(s[0])));
      && Derivation(c, f, ts, r.rest, Binary(LedOp(s[0]), e, r.e))
      && c.Infix? && Level(c.op) == LedPrec(s[0])
    decreases |s|, 0
  {
    hide After, Means, Grouped, Next, LedPrec, Level, OpMeans, Comparison, LedOp;
    NextIsLed(s);
    var p, op := LedPrec(s[0]), OpAt(s);
    LedMeans(s);
    var d := PrattSound(s[|op|..], RightFloor(p));
    c := Infix(left, op, d);
    hide Pratt;
    InfixDerives(ts, left, e, s, op, LedOp(s[0]), d, Pratt(s[|op|..], RightFloor(p)).e,
      Pratt(s[|op|..], RightFloor(p)).rest, f);
  }

  lemma {:induction false} LedOk(e: Expr, s: seq<Token>)
    requires LedPrec(Cur(s)) > 0 && s[0] != Kw(KwIs) && ApplyLed(e, s).Ok?
    ensures (s[0] == Kw(KwStarts) || s[0] == Kw(KwEnds)) ==> Look(s) == Kw(KwWith)
    ensures var q := Pratt(s[|OpAt(s)|..], RightFloor(LedPrec(s[0])));
      q.Ok? && ApplyLed(e, s) == Ok(Binary(LedOp(s[0]), e, q.e), q.rest)
  {
    hide Pratt, LedPrec, LedOp;
  }

  lemma {:induction false} IsLevel()
    ensures LedPrec(Kw(KwIs)) == 5
  {}

  lemma {:induction false} TestedLeft(c: Tree, f: nat, rest: seq<Token>)
    requires c.Tested? && Grouped(c, f, Next(rest))
    ensures LeftOf(c, f, true, Next(rest))
  {}

  lemma {:induction false} InfixLeft(c: Tree, p: nat)
    requires c.Infix? && Level(c.op) == p
    ensures Comparison(c) ==> p == 5
  {}

  lemma {:induction false} InfixDerives(ts: seq<Token>, x: Tree, e: Expr, s: seq<Token>, op: seq<Token>, o: BinaryOp,
                                        y: Tree, e': Expr, rest: seq<Token>, f: nat)
    requires After(x, ts) == Some(s) && Means(x, e) && op <= s && OpMeans(op, o) && f <= Level(op)
    requires Grouped(x, f, Level(op)) && (Level(op) == 5 ==> !Comparison(x))
    requires Derivation(y, RightFloor(Level(op)), s[|op|..], rest, e') && Next(rest) < RightFloor(Level(op))
    ensures Derivation(Infix(x, op, y), f, ts, rest, Binary(o, e, e'))
  {}

  lemma {:induction false} TestSound(ts: seq<Token>, left: Tree, e: Expr, s: seq<Token>, f: nat) returns (c: Tree)
    requires f <= 5 && After(left, ts) == Some(s) && Means(left, e) && Grouped(left, f, 5) && !Comparison(left)
    requires s != [] && s[0] == Kw(KwIs) && ParsePred(e, s[1..]).Ok?
    ensures var r := ParsePred(e, s[1..]); c.Tested? && Derivation(c, f, ts, r.rest, r.e)
  {
    hide ParsePred, TestMeans, Comparison;
    var r := ParsePred(e, s[1..]);
    var tail := TailRead(e, s);
    assert r.rest == s[|tail|..];
    c := Tested(left, tail);
  }

  lemma {:induction false} TailRead(e: Expr, s: seq<Token>) returns (tail: seq<Token>)
    requires s != [] && s[0] == Kw(KwIs) && ParsePred(e, s[1..]).Ok?
    ensures var r := ParsePred(e, s[1..]);
      tail + r.rest == s && r.e.Pred? && r.e.x == e && TestMeans(tail, r.e.negated, r.e.typ)
  {
    var neg := Cur(s[1..]) == Kw(KwNot);
    var k := if neg then 2 else 1;
    var a := s[k..];
    assert (if neg then s[1..][1..] else s[1..]) == a;
    var m := if Cur(a) == ColonColon then 2 else 1;
    tail := s[..k + m];
    SliceTwice(s, k, m);
    hide TypeMeans;
    TypeRead(a, m, if m == 2 then Some(NameOf(Look(a))) else None);
  }

  lemma {:induction false} SliceTwice(s: seq<Token>, k: nat, m: nat)
    requires k + m <= |s|
    ensures s[..k + m][k..] == s[k..][..m] && s[k + m..] == s[k..][m..]
  {}

  lemma {:induction false} TypeRead(a: seq<Token>, m: nat, typ: Option<Name>)
    requires m <= |a| && (typ.None? ==> m == 1 && a[0] == Kw(KwNull))
    requires typ.Some? ==> m == 2 && a[0] == ColonColon && NameMeans(a[1], typ.value)
    ensures TypeMeans(a[..m], typ)
  {}

  lemma {:induction false} PrefixSound(ts: seq<Token>) returns (c: Tree)
    requires Prefix(ts).Ok?
    ensures var r := Prefix(ts);
      && After(c, ts) == Some(r.rest) && Means(c, r.e) && !Comparison(c)
      && forall f, next :: next == Next(r.rest) ==> Grouped(c, f, next)
    decreases |ts|, 5
  {
    var t := Cur(ts);
    if t == Kw(KwNot) || t == Plus || t == Minus {
      var d := PrattSound(ts[1..], if t == Kw(KwNot) then 5 else 9);
      c := Prefixed(t, d);
      hide Pratt, Next;
    } else {
      hide Postfix, Pratt, Next;
      c := PostfixSound(ts);
      OperandGrouped(c);
    }
  }

  lemma {:induction false} OperandGrouped(c: Tree)
    requires Operand(c) && Grouped(c, 1, 0)
    ensures !Comparison(c) && forall f, next :: Grouped(c, f, next)
  {
    hide Level;
  }

  /** An operand read from the front of a text. */
  predicate ReadsOperand(c: Tree, ts: seq<Token>, r: Parsed) {
    r.Ok? && After(c, ts) == Some(r.rest) && Means(c, r.e) && Operand(c) && Grouped(c, 1, 0)
  }

  lemma {:induction false} PostfixSound(ts: seq<Token>) returns (c: Tree)
    requires Postfix(ts).Ok? && Cur(ts) != Kw(KwNot)
    ensures ReadsOperand(c, ts, Postfix(ts))
    decreases |ts|, 4
  {
    hide Primary, PostLoop, After, Means, Grouped;
    var p := Primary(ts);
    var d := PrimarySound(ts);
    c := PostLoopSound(ts, d, p.e, p.rest);
  }

  lemma {:induction false} PostLoopSound(ts: seq<Token>, x: Tree, e: Expr, s: seq<Token>) returns (c: Tree)
    requires ReadsOperand(x, ts, Ok(e, s)) && PostLoop(e, s).Ok? && |s| < |ts|
    ensures ReadsOperand(c, ts, PostLoop(e, s))
    decreases |s|, 1
  {
    if Cur(s) == Dot {
      var d := Member(x, Look(s));
      assert [Dot, Look(s)] <= s;
      assert ReadsOperand(d, ts, Ok(Property(e, NameOf(Look(s))), s[2..]));
      hide ReadsOperand;
      c := PostLoopSound(ts, d, Property(e, NameOf(Look(s))), s[2..]);
    } else if Cur(s) == LBracket {
      hide PostfixIndex, ReadsOperand;
      var r := PostfixIndex(e, s);
      var d := IndexSound(ts, x, e, s);
      c := PostLoopSound(ts, d, r.e, r.rest);
    } else {
      c := x;
    }
  }

  lemma {:induction false} IndexSound(ts: seq<Token>, x: Tree, e: Expr, s: seq<Token>) returns (c: Tree)
    requires ReadsOperand(x, ts, Ok(e, s)) && s != [] && s[0] == LBracket && PostfixIndex(e, s).Ok?
    ensures ReadsOperand(c, ts, PostfixIndex(e, s))
    decreases |s|, 0
  {
    hide After, Means, Grouped;
    var low := Pratt(s[1..], 1);
    var l := PrattSound(s[1..], 1);
    hide Pratt, Next;
    if Cur(low.rest) == DotDot {
      var h := low.rest[1..];
      assert low.rest == [DotDot] + h;
      if Cur(h) == RBracket {
        c := Sliced(x, l, None);
        SliceDerives(ts, x, e, s, l, low.e, h, None, None, h);
      } else {
        var high := PrattSound(h, 1);
        c := Sliced(x, l, Some(high));
        SliceDerives(ts, x, e, s, l, low.e, h, Some(high), Some(Pratt(h, 1).e), Pratt(h, 1).rest);
      }
    } else {
      c := Subscript(x, l);
      IndexDerives(ts, x, e, s, l, low.e, low.rest);
    }
  }

  lemma {:induction false} IndexDerives(ts: seq<Token>, x: Tree, e: Expr, s: seq<Token>, i: Tree, at: Expr,
                                        a: seq<Token>)
    requires ReadsOperand(x, ts, Ok(e, s)) && s != [] && s[0] == LBracket
    requires After(i, s[1..]) == Some(a) && Means(i, at) && Grouped(i, 1, 0) && a != [] && a[0] == RBracket
    ensures ReadsOperand(Subscript(x, i), ts, Ok(Index(e, at), a[1..]))
  {}

  lemma {:induction false} SliceDerives(ts: seq<Token>, x: Tree, e: Expr, s: seq<Token>, l: Tree, low: Expr,
                                        h: seq<Token>, hc: Option<Tree>, high: Option<Expr>, a: seq<Token>)
    requires ReadsOperand(x, ts, Ok(e, s)) && s != [] && s[0] == LBracket
    requires After(l, s[1..]) == Some([DotDot] + h) && Means(l, low) && Grouped(l, 1, 0)
    requires hc.None? ==> high.None? && h == a
    requires hc.Some? ==> high.Some? && After(hc.value, h) == Some(a) && Means(hc.value, high.value)
    requires hc.Some? ==> Grouped(hc.value, 1, 0)
    requires a != [] && a[0] == RBracket
    ensures ReadsOperand(Sliced(x, l, hc), ts, Ok(Slice(e, low, high), a[1..]))
  {
    hide After, Means, Grouped;
    assert ([DotDot] + h)[1..] == h;
    assert Closed(l, LBracket, DotDot, s) == Some(h);
    hide Closed;
    SlicedAfter(ts, x, s, l, h, hc, a);
    SlicedMeans(x, l, hc, Slice(e, low, high));
  }

  lemma {:induction false} SlicedMeans(x: Tree, l: Tree, hc: Option<Tree>, e: Expr)
    requires e.Slice? && Means(x, e.x) && Means(l, e.low) && MeansOption(hc, e.high)
    requires Operand(x) && Grouped(x, 1, 0) && Grouped(l, 1, 0) && (hc.Some? ==> Grouped(hc.value, 1, 0))
    ensures Means(Sliced(x, l, hc), e) && Grouped(Sliced(x, l, hc), 1, 0)
  {
    hide MeansOption;
  }

  lemma {:induction false} SlicedAfter(ts: seq<Token>, x: Tree, s: seq<Token>, l: Tree, h: seq<Token>,
                                       hc: Option<Tree>, a: seq<Token>)
    requires After(x, ts) == Some(s) && Closed(l, LBracket, DotDot, s) == Some(h) && a != [] && a[0] == RBracket
    requires if hc.None? then h == a else After(hc.value, h) == Some(a)
    ensures After(Sliced(x, l, hc), ts) == Some(a[1..])
  { hide Closed; }

  lemma {:induction false} ExprsSound(ts: seq<Token>, close: Token) returns (cs: seq<Tree>)
    requires Exprs(ts).OkList? && Cur(Exprs(ts).more) == close && close != Comma && close != EOF
    ensures cs != [] && AfterAll(cs, close, ts) == Some(Exprs(ts).more[1..]) && MeansAll(cs, Exprs(ts).es)
    ensures forall i :: 0 <= i < |cs| ==> Grouped(cs[i], 1, 0)
    decreases |ts|, 7
  {
    var r := Pratt(ts, 1);
    var c := PrattSound(ts, 1);
    hide Pratt, Next, After, Means, Grouped;
    if Cur(r.rest) != Comma {
      cs := [c];
    } else {
      var ds := ExprsSound(r.rest[1..], close);
      cs := [c] + ds;
      assert cs[1..] == ds && Exprs(ts).es[1..] == Exprs(r.rest[1..]).es;
    }
  }

  lemma {:induction false} PrimarySound(ts: seq<Token>) returns (c: Tree)
    requires Primary(ts).Ok? && Cur(ts) != Kw(KwNot)
    ensures ReadsOperand(c, ts, Primary(ts))
    decreases |ts|, 3
  {
    match Cur(ts) {
      case LParen =>
        var d := PrattSound(ts[1..], 1);
        hide Pratt, Next, After, Means, Grouped;
        c := Parens(d);
        ParensDerives(ts, d, Pratt(ts[1..], 1).e, Pratt(ts[1..], 1).rest);
      case LBracket =>
        hide ListOrComp, ReadsOperand;
        c := ListSound(ts);
      case Ident(n) =>
        hide ParseCall, ReadsOperand;
        if Look(ts) == LParen { c := CallSound(ts, n); } else { c := WordSound(ts); }
      case Kw(k) =>
        hide ParseCall, ReadsOperand;
        if LiteralKeyword(k).Some? { c := WordSound(ts); } else { c := CallSound(ts, Reserved(k)); }
      case _ =>
        hide ReadsOperand;
        c := WordSound(ts);
    }
  }

  lemma {:induction false} WordSound(ts: seq<Token>) returns (c: Tree)
    requires Primary(ts).Ok? && Cur(ts) != LParen && Cur(ts) != LBracket && (Cur(ts).Ident? ==> Look(ts) != LParen)
    requires Cur(ts).Kw? ==> LiteralKeyword(Cur(ts).k).Some?
    ensures ReadsOperand(c, ts, Primary(ts))
  {
    c := Word(ts[0]);
  }

  lemma {:induction false} ParensDerives(ts: seq<Token>, d: Tree, e: Expr, a: seq<Token>)
    requires ts != [] && ts[0] == LParen && After(d, ts[1..]) == Some(a) && Means(d, e) && Grouped(d, 1, 0)
    requires a != [] && a[0] == RParen
    ensures ReadsOperand(Parens(d), ts, Ok(e, a[1..]))
  {}

  lemma {:induction false} ListSound(ts: seq<Token>) returns (c: Tree)
    requires ts != [] && ts[0] == LBracket && ListOrComp(ts[1..]).Ok?
    ensures ReadsOperand(c, ts, ListOrComp(ts[1..]))
    decreases |ts|, 2
  {
    var a := ts[1..];
    if Cur(a).Ident? && Look(a) == Kw(KwIn) {
      hide ParseComp;
      c := CompSound(ts);
    } else if Cur(a) == RBracket {
      c := Listed([]);
    } else {
      var cs := ExprsSound(a, RBracket);
      hide Exprs, AfterAll, MeansAll, Grouped;
      c := Listed(cs);
      GroupedList(cs);
    }
  }

  lemma {:induction false} GroupedList(cs: seq<Tree>)
    requires forall i :: 0 <= i < |cs| ==> Grouped(cs[i], 1, 0)
    ensures Grouped(Listed(cs), 1, 0)
  {}

  lemma {:induction false} OptionSound(lead: Token, ts: seq<Token>) returns (o: Option<Tree>)
    requires ParseOptional(lead, ts).OkOption? && (lead == Kw(KwWhere) || lead == Pipe)
    requires Next(ts) == 0
    ensures var r := ParseOptional(lead, ts);
      && AfterOption(lead, o, ts) == Some(r.after) && MeansOption(o, r.o) && Next(r.after) == 0
      && (o.Some? ==> Grouped(o.value, 1, 0))
    decreases |ts|, 7
  {
    if ts == [] || ts[0] != lead {
      o := None;
    } else {
      var c := PrattSound(ts[1..], 1);
      hide Pratt, Next;
      o := Some(c);
    }
  }

  lemma {:induction false} CompSound(ts: seq<Token>) returns (c: Tree)
    requires |ts| >= 3 && ts[0] == LBracket && ts[1].Ident? && ts[2] == Kw(KwIn) && ParseComp(ts[1].n, ts[3..]).Ok?
    ensures ReadsOperand(c, ts, ParseComp(ts[1].n, ts[3..]))
    decreases |ts|, 1
  {
    var a := Pratt(ts[3..], 1);
    var src := PrattSound(ts[3..], 1);
    hide Pratt, Next, ParseOptional;
    var b := ParseOptional(Kw(KwWhere), a.rest);
    var cond := OptionSound(Kw(KwWhere), a.rest);
    var proj := OptionSound(Pipe, b.after);
    hide After, Means, Grouped;
    c := Comprehended(ts[1], src, cond, proj);
    CompDerives(ts, c, a.e, a.rest, b.o, b.after, ParseOptional(Pipe, b.after).o, ParseOptional(Pipe, b.after).after);
  }

  lemma {:induction false} CompDerives(ts: seq<Token>, c: Tree, src: Expr, a: seq<Token>, cond: Option<Expr>,
                                       b: seq<Token>, proj: Option<Expr>, d: seq<Token>)
    requires |ts| >= 3 && ts[0] == LBracket && ts[1].Ident? && ts[2] == Kw(KwIn)
    requires c.Comprehended? && c.v == ts[1] && d != [] && d[0] == RBracket
    requires After(c.src, ts[3..]) == Some(a) && Means(c.src, src) && Grouped(c.src, 1, 0)
    requires AfterOption(Kw(KwWhere), c.cond, a) == Some(b) && MeansOption(c.cond, cond)
    requires AfterOption(Pipe, c.proj, b) == Some(d) && MeansOption(c.proj, proj)
    requires c.cond.Some? ==> Grouped(c.cond.value, 1, 0)
    requires c.proj.Some? ==> Grouped(c.proj.value, 1, 0)
    ensures ReadsOperand(c, ts, Ok(Comp(ts[1].n, src, cond, proj), d[1..]))
  {
    assert [LBracket, c.v, Kw(KwIn)] <= ts;
    hide AfterOption, MeansOption;
  }

  lemma {:induction false} CallSound(ts: seq<Token>, f: Name) returns (c: Tree)
    requires |ts| >= 2 && ts[1] == LParen && NameMeans(ts[0], f) && ParseCall(f, ts[2..]).Ok?
    requires ts[0].Kw? ==> ts[0].k !in QUANTIFIERS && LiteralKeyword(ts[0].k).None? && ts[0].k != KwNot
    ensures ReadsOperand(c, ts, ParseCall(f, ts[2..]))
    decreases |ts|, 1
  {
    var distinct := Cur(ts[2..]) == Kw(KwDistinct);
    var a := if distinct then ts[3..] else ts[2..];
    assert ParseCall(f, ts[2..]) == CallArgs(f, distinct, a) by { hide CallArgs; }
    hide ReadsOperand;
    if Cur(a) == Star {
      c := Applied(ts[0], distinct, true, []);
      hide ParseCall;
      CallDerives(ts, c, f, [], a[2..]);
    } else if Cur(a) == RParen {
      c := Applied(ts[0], distinct, false, []);
      hide ParseCall;
      CallDerives(ts, c, f, [], a[1..]);
    } else {
      var cs := ExprsSound(a, RParen);
      hide Exprs, AfterAll, MeansAll, Grouped, ParseCall;
      c := Applied(ts[0], distinct, false, cs);
      CallDerives(ts, c, f, Exprs(a).es, Exprs(a).more[1..]);
    }
  }

  lemma {:induction false} CallDerives(ts: seq<Token>, c: Tree, f: Name, es: seq<Expr>, rest: seq<Token>)
    requires |ts| >= 2 && ts[1] == LParen && NameMeans(ts[0], f) && c.Applied? && c.f == ts[0]
    requires c.distinct == (Cur(ts[2..]) == Kw(KwDistinct)) && MeansAll(c.args, es) && (c.star ==> c.args == [])
    requires ts[0].Kw? ==> ts[0].k !in QUANTIFIERS && LiteralKeyword(ts[0].k).None? && ts[0].k != KwNot
    requires forall i :: 0 <= i < |c.args| ==> Grouped(c.args[i], 1, 0)
    requires var a := if c.distinct then ts[3..] else ts[2..];
      if c.star then |a| >= 2 && a[0] == Star && a[1] == RParen && rest == a[2..]
      else AfterAll(c.args, RParen, a) == Some(rest)
    ensures ReadsOperand(c, ts, Ok(Call(f, c.distinct, c.star, es), rest))
  {
    var a := if c.distinct then ts[3..] else ts[2..];
    assert [c.f, LParen] <= ts;
    assert c.star ==> [Star, RParen] <= a;
    hide AfterAll, MeansAll;
    GroupedCall(c);
  }

  lemma {:induction false} GroupedCall(c: Tree)
    requires c.Applied? && forall i :: 0 <= i < |c.args| ==> Grouped(c.args[i], 1, 0)
    requires c.f.Kw? ==> c.f.k !in QUANTIFIERS && LiteralKeyword(c.f.k).None? && c.f.k != KwNot
    ensures Grouped(c, 1, 0)
  {}

  // ---- the parser reads every text of the grammar ---------------------------------------------

  /** Nothing that a postfix would take. */
  predicate Done(rest: seq<Token>) { Cur(rest) != Dot && Cur(rest) != LBracket }

  lemma {:induction false} Stops(e: Expr, cmp: bool, rest: seq<Token>, f: nat)
    requires Next(rest) < f
    ensures Loop(e, cmp, rest, f) == Ok(e, rest)
  {
    NextIsLed(rest);
    hide ApplyLed, Next, LedPrec;
  }

  /** A whole expression in front of a token that cannot continue it. */
  lemma {:induction false} Whole(c: Tree, ts: seq<Token>, rest: seq<Token>, e: Expr)
    requires After(c, ts) == Some(rest) && Means(c, e) && Grouped(c, 1, 0) && Next(rest) == 0 && Done(rest)
    ensures Pratt(ts, 1) == Ok(e, rest)
    decreases c, 5
  {
    Standing(c, ts, rest, e, 1, 1);
    Stops(e, Comparison(c), rest, 1);
  }

  /** Behind the text of a tree the parser stands in its loop with that expression on the left. */
  lemma {:induction false} Standing(c: Tree, ts: seq<Token>, rest: seq<Token>, e: Expr, f: nat, g: nat)
    requires After(c, ts) == Some(rest) && Means(c, e) && Grouped(c, f, Next(rest)) && 1 <= g <= f && Done(rest)
    ensures Pratt(ts, g) == Loop(e, Comparison(c), rest, g)
    decreases c, 4
  {
    match c {
      case Prefixed(t, x) => StandingPrefix(c, ts, rest, e, g);
      case Infix(x, op, y) => StandingInfix(c, ts, rest, e, f, g);
      case Tested(x, tail) => StandingTest(c, ts, rest, e, f, g);
      case _ =>
        hide After, Means, Grouped, Postfix, PostLoop, Prefix, Loop, Next;
        OperandAnywhere(c, f, Next(rest));
        Posted(c, ts, rest, e);
        PrefixPosted(ts, e, rest, g);
    }
  }

  lemma {:induction false} OperandAnywhere(c: Tree, f: nat, next: nat)
    requires Operand(c) && Grouped(c, f, next)
    ensures Grouped(c, 1, 0)
  {
    hide Level;
  }

  lemma {:induction false} PrefixPosted(ts: seq<Token>, e: Expr, rest: seq<Token>, g: nat)
    requires Postfix(ts) == PostLoop(e, rest) && Done(rest)
    requires Cur(ts) != Kw(KwNot) && Cur(ts) != Plus && Cur(ts) != Minus
    ensures Pratt(ts, g) == Loop(e, false, rest, g)
  {
    hide Postfix, Loop, Pratt;
    assert Prefix(ts) == Ok(e, rest);
    hide Prefix;
    FromPrefix(ts, e, rest, g);
  }

  lemma {:induction false} FromPrefix(ts: seq<Token>, e: Expr, rest: seq<Token>, g: nat)
    requires Prefix(ts) == Ok(e, rest)
    ensures Pratt(ts, g) == Loop(e, false, rest, g)
  { hide Prefix, Loop; }

  lemma {:induction false} StandingPrefix(c: Tree, ts: seq<Token>, rest: seq<Token>, e: Expr, g: nat)
    requires c.Prefixed? && After(c, ts) == Some(rest) && Means(c, e) && Grouped(c, g, Next(rest)) && Done(rest)
    ensures Pratt(ts, g) == Loop(e, false, rest, g)
    decreases c, 3
  {
    var b := if c.t == Kw(KwNot) then 5 else 9;
    assert After(c.x, ts[1..]) == Some(rest) && ts[0] == c.t;
    hide After, Grouped, Next;
    Standing(c.x, ts[1..], rest, e.x, b, b);
    Stops(e.x, Comparison(c.x), rest, b);
    hide Means, Loop, Pratt, Comparison;
    PrefixOf(ts, e, rest);
    FromPrefix(ts, e, rest, g);
  }

  lemma {:induction false} PrefixOf(ts: seq<Token>, e: Expr, rest: seq<Token>)
    requires ts != [] && e.Unary? && PrefixMeans(ts[0], e.u)
    requires Pratt(ts[1..], if ts[0] == Kw(KwNot) then 5 else 9) == Ok(e.x, rest)
    ensures Prefix(ts) == Ok(e, rest)
  { hide Pratt, Postfix; }

  lemma {:induction false} StandingInfix(c: Tree, ts: seq<Token>, rest: seq<Token>, e: Expr, f: nat, g: nat)
    requires c.Infix? && After(c, ts) == Some(rest) && Means(c, e) && Grouped(c, f, Next(rest)) && 1 <= g <= f
    requires Done(rest)
    ensures Pratt(ts, g) == Loop(e, Comparison(c), rest, g)
    decreases c, 3
  {
    var op, p := c.op, Level(c.op);
    var s := After(c.left, ts).value;
    var more := s[|op|..];
    OpRead(op, e.op, s);
    hide After, Means, Grouped, Next, OpMeans, Level;
    Standing(c.left, ts, s, e.left, f, g);
    Standing(c.right, more, rest, e.right, RightFloor(p), RightFloor(p));
    Stops(e.right, Comparison(c.right), rest, RightFloor(p));
    hide Pratt, Loop, LedPrec, LedOp;
    LoopInfix(e.left, Comparison(c.left), s, e.right, rest, g);
  }

  lemma {:induction false} LoopInfix(left: Expr, cmp: bool, s: seq<Token>, right: Expr, rest: seq<Token>, g: nat)
    requires s != [] && LedPrec(s[0]) > 0 && s[0] != Kw(KwIs) && g <= LedPrec(s[0]) && !(cmp && LedPrec(s[0]) == 5)
    requires (s[0] == Kw(KwStarts) || s[0] == Kw(KwEnds)) ==> Look(s) == Kw(KwWith)
    requires Pratt(s[|OpAt(s)|..], RightFloor(LedPrec(s[0]))) == Ok(right, rest)
    ensures Loop(left, cmp, s, g) == Loop(Binary(LedOp(s[0]), left, right), LedPrec(s[0]) == 5, rest, g)
  {
    assert ApplyLed(left, s) == Ok(Binary(LedOp(s[0]), left, right), rest) by { hide Pratt, LedPrec, LedOp; }
    hide ApplyLed, LedPrec, LedOp;
  }

  lemma {:induction false} StandingTest(c: Tree, ts: seq<Token>, rest: seq<Token>, e: Expr, f: nat, g: nat)
    requires c.Tested? && After(c, ts) == Some(rest) && Means(c, e) && Grouped(c, f, Next(rest)) && 1 <= g <= f
    ensures Pratt(ts, g) == Loop(e, true, rest, g)
    decreases c, 3
  {
    hide Next;
    var s := After(c.x, ts).value;
    assert s[0] == c.tail[0] == Kw(KwIs) && c.tail + rest == s;
    IsNext(s);
    hide After, Grouped;
    Standing(c.x, ts, s, e.x, f, g);
    TestRead(c.tail, e, s, rest);
    hide Means, Pratt, Loop, ParsePred, Comparison, TestMeans;
    LoopTest(e.x, s, e, rest, g);
  }

  lemma {:induction false} IsNext(s: seq<Token>)
    requires s != [] && s[0] == Kw(KwIs)
    ensures Next(s) == 5
  {}

  lemma {:induction false} TestRead(tail: seq<Token>, e: Expr, s: seq<Token>, rest: seq<Token>)
    requires e.Pred? && TestMeans(tail, e.negated, e.typ) && s == tail + rest
    ensures ParsePred(e.x, s[1..]) == Ok(e, rest)
  {
    var k := if e.negated then 2 else 1;
    var a := s[k..];
    assert a == tail[k..] + rest && a[|tail| - k..] == rest;
    assert e.negated ==> s[1..][1..] == a && s[1..][0] == Kw(KwNot);
  }

  lemma {:induction false} LoopTest(left: Expr, s: seq<Token>, e: Expr, rest: seq<Token>, g: nat)
    requires s != [] && s[0] == Kw(KwIs) && ParsePred(left, s[1..]) == Ok(e, rest) && g <= 5
    ensures Loop(left, false, s, g) == Loop(e, true, rest, g)
  {
    assert ApplyLed(left, s) == Ok(e, rest);
    hide ApplyLed, ParsePred;
  }

  /** Behind an operand the parser stands in its postfix loop. */
  lemma {:induction false} Posted(c: Tree, ts: seq<Token>, rest: seq<Token>, e: Expr)
    requires Operand(c) && After(c, ts) == Some(rest) && Means(c, e) && Grouped(c, 1, 0)
    ensures Postfix(ts) == PostLoop(e, rest) && Cur(ts) != Kw(KwNot) && Cur(ts) != Plus && Cur(ts) != Minus
    decreases c, 2
  {
    if c.Member? {
      var s := After(c.x, ts).value;
      Posted(c.x, ts, s, e.x);
      assert s[0] == [Dot, c.name][0] && s[1] == [Dot, c.name][1] && s[2..] == rest;
      hide After, Means, Grouped, Postfix;
    } else if c.Subscript? {
      PostedIndex(c, ts, rest, e);
    } else if c.Sliced? {
      PostedSlice(c, ts, rest, e);
    } else {
      PrimaryRead(c, ts, rest, e);
      hide After, Means, Grouped, Primary, PostLoop;
    }
  }

  lemma {:induction false} PostedIndex(c: Tree, ts: seq<Token>, rest: seq<Token>, e: Expr)
    requires c.Subscript? && After(c, ts) == Some(rest) && Means(c, e) && Grouped(c, 1, 0)
    ensures Postfix(ts) == PostLoop(e, rest) && Cur(ts) != Kw(KwNot) && Cur(ts) != Plus && Cur(ts) != Minus
    decreases c, 1
  {
    var s := After(c.x, ts).value;
    var a := After(c.at, s[1..]).value;
    assert a != [] && a[0] == RBracket && s[0] == LBracket && rest == a[1..];
    hide After, Means, Grouped;
    Posted(c.x, ts, s, e.x);
    Whole(c.at, s[1..], a, e.index);
    hide Postfix, Pratt;
    assert PostfixIndex(e.x, s) == Ok(e, rest);
    hide PostfixIndex;
  }

  lemma {:induction false} PostedSlice(c: Tree, ts: seq<Token>, rest: seq<Token>, e: Expr)
    requires c.Sliced? && After(c, ts) == Some(rest) && Means(c, e) && Grouped(c, 1, 0)
    ensures Postfix(ts) == PostLoop(e, rest) && Cur(ts) != Kw(KwNot) && Cur(ts) != Plus && Cur(ts) != Minus
    decreases c, 1
  {
    var s := After(c.x, ts).value;
    var a := After(c.low, s[1..]).value;
    assert a != [] && a[0] == DotDot && s[0] == LBracket;
    var h := a[1..];
    hide Means, Grouped;
    Posted(c.x, ts, s, e.x) by { assert Means(c, e); }
    Whole(c.low, s[1..], a, e.low);
    if c.high.Some? {
      var b := After(c.high.value, h).value;
      assert b != [] && b[0] == RBracket && rest == b[1..];
      TextStarts(c.high.value, h, e.high.value);
      Whole(c.high.value, h, b, e.high.value);
    }
    hide After, Postfix, Pratt;
    assert SliceEnd(e.x, e.low, h) == Ok(e, rest);
    assert PostfixIndex(e.x, s) == Ok(e, rest);
    hide PostfixIndex;
  }

  /** A text does not start with a closing token or a star. */
  lemma {:induction false} TextStarts(c: Tree, ts: seq<Token>, e: Expr)
    requires After(c, ts).Some? && Means(c, e)
    ensures ts != [] && ts[0] != RBracket && ts[0] != RParen && ts[0] != Star
    decreases c
  {
    match c {
      case Infix(x, _, _) => TextStarts(x, ts, e.left);
      case Tested(x, _) => TextStarts(x, ts, e.x);
      case Member(x, _) => TextStarts(x, ts, e.x);
      case Subscript(x, _) => TextStarts(x, ts, e.x);
      case Sliced(x, _, _) => TextStarts(x, ts, e.x);
      case _ =>
    }
  }

  lemma {:induction false} PrimaryRead(c: Tree, ts: seq<Token>, rest: seq<Token>, e: Expr)
    requires c.Word? || c.Parens? || c.Listed? || c.Comprehended? || c.Applied?
    requires After(c, ts) == Some(rest) && Means(c, e) && Grouped(c, 1, 0)
    ensures Primary(ts) == Ok(e, rest) && Cur(ts) != Kw(KwNot) && Cur(ts) != Plus && Cur(ts) != Minus
    decreases c, 1
  {
    match c {
      case Word(t) => WordRead(t, ts, rest, e);
      case Parens(x) =>
        var a := After(x, ts[1..]).value;
        hide After, Means, Grouped;
        Whole(x, ts[1..], a, e);
        hide Pratt, ListOrComp, ParseCall;
      case Listed(xs) =>
        hide After, Means, Grouped, Primary;
        ListRead(c, ts, rest, e);
      case Comprehended(v, src, cond, proj) =>
        hide After, Means, Grouped, Primary;
        CompRead(c, ts, rest, e);
      case Applied(f, distinct, star, args) =>
        hide After, Means, Grouped, Primary;
        CallRead(c, ts, rest, e);
    }
  }

  lemma {:induction false} WordRead(t: Token, ts: seq<Token>, rest: seq<Token>, e: Expr)
    requires After(Word(t), ts) == Some(rest) && WordMeans(t, e)
    ensures Primary(ts) == Ok(e, rest) && Cur(ts) != Kw(KwNot) && Cur(ts) != Plus && Cur(ts) != Minus
  {
    hide Pratt, ListOrComp, ParseCall;
  }

  lemma {:induction false} ListRead(c: Tree, ts: seq<Token>, rest: seq<Token>, e: Expr)
    requires c.Listed? && After(c, ts) == Some(rest) && Means(c, e) && Grouped(c, 1, 0)
    ensures Primary(ts) == Ok(e, rest) && Cur(ts) == LBracket
    decreases c, 0
  {
    var a := ts[1..];
    if c.xs == [] {
      hide Exprs, Pratt, ParseComp;
    } else {
      TextStarts(c.xs[0], a, e.elems[0]);
      var more := ExprsRead(c.xs, RBracket, a, rest, e.elems);
      hide Exprs, After, Means, Grouped, AfterAll, MeansAll, ParseComp;
      assert ListOrComp(a) == Ok(e, rest);
      hide ListOrComp;
    }
  }

  lemma {:induction false} ExprsRead(xs: seq<Tree>, close: Token, ts: seq<Token>, rest: seq<Token>, es: seq<Expr>)
    returns (more: seq<Token>)
    requires xs != [] && AfterAll(xs, close, ts) == Some(rest) && MeansAll(xs, es)
    requires forall i :: 0 <= i < |xs| ==> Grouped(xs[i], 1, 0)
    requires close == RBracket || close == RParen
    ensures Exprs(ts) == OkList(es, more) && more != [] && more[0] == close && rest == more[1..]
    decreases xs, 0
  {
    var a := After(xs[0], ts).value;
    if |xs| == 1 {
      more := a;
      assert es == [es[0]];
      hide After, Means, Grouped;
      Whole(xs[0], ts, a, es[0]);
      hide Pratt;
    } else {
      hide After, Means, Grouped;
      Whole(xs[0], ts, a, es[0]);
      more := ExprsRead(xs[1..], close, a[1..], rest, es[1..]);
      assert es == [es[0]] + es[1..];
      hide Pratt;
    }
  }

  lemma {:induction false} OptionRead(lead: Token, c: Option<Tree>, ts: seq<Token>, rest: seq<Token>, o: Option<Expr>)
    requires AfterOption(lead, c, ts) == Some(rest) && MeansOption(c, o) && (c.Some? ==> Grouped(c.value, 1, 0))
    requires (lead == Kw(KwWhere) || lead == Pipe) && Next(rest) == 0 && Done(rest) && (c.None? ==> Cur(ts) != lead)
    ensures ParseOptional(lead, ts) == OkOption(o, rest)
    decreases c, 1
  {
    if c.Some? {
      Whole(c.value, ts[1..], rest, o.value);
      hide Pratt;
    }
  }

  lemma {:induction false} CompRead(c: Tree, ts: seq<Token>, rest: seq<Token>, e: Expr)
    requires c.Comprehended? && After(c, ts) == Some(rest) && Means(c, e) && Grouped(c, 1, 0)
    ensures Primary(ts) == Ok(e, rest) && Cur(ts) == LBracket
    decreases c, 0
  {
    var a, b, d := CompParts(c, ts, rest);
    hide After, AfterOption, Means, MeansOption, Grouped, Next;
    WholeParts(c, e);
    Whole(c.src, ts[3..], a, e.src);
    OptionRead(Kw(KwWhere), c.cond, a, b, e.cond);
    OptionRead(Pipe, c.proj, b, d, e.proj);
    hide Pratt, ParseOptional;
    assert ParseComp(e.v, ts[3..]) == Ok(e, rest);
    BracketComp(ts, e.v);
  }

  /** Where the parts of a comprehension end. */
  lemma {:induction false} CompParts(c: Tree, ts: seq<Token>, rest: seq<Token>)
    returns (a: seq<Token>, b: seq<Token>, d: seq<Token>)
    requires c.Comprehended? && After(c, ts) == Some(rest)
    ensures |ts| >= 3 && ts[0] == LBracket && ts[1] == c.v && ts[2] == Kw(KwIn) && After(c.src, ts[3..]) == Some(a)
    ensures AfterOption(Kw(KwWhere), c.cond, a) == Some(b) && Next(a) == 0 && Done(a)
    ensures AfterOption(Pipe, c.proj, b) == Some(d) && Next(b) == 0 && Done(b) && Cur(b) != Kw(KwWhere)
    ensures d != [] && d[0] == RBracket && rest == d[1..] && Next(d) == 0 && Done(d)
    ensures (c.cond.None? ==> Cur(a) != Kw(KwWhere)) && (c.proj.None? ==> Cur(b) != Pipe)
  {
    var head := [LBracket, c.v, Kw(KwIn)];
    assert ts[0] == head[0] && ts[1] == head[1] && ts[2] == head[2];
    a := After(c.src, ts[3..]).value;
    b := AfterOption(Kw(KwWhere), c.cond, a).value;
    d := AfterOption(Pipe, c.proj, b).value;
    hide After, AfterOption;
    OptionStarts(Pipe, c.proj, b, d);
    OptionStarts(Kw(KwWhere), c.cond, a, b);
  }

  lemma {:induction false} BracketComp(ts: seq<Token>, v: Name)
    requires |ts| >= 3 && ts[0] == LBracket && ts[1] == Ident(v) && ts[2] == Kw(KwIn)
    ensures Primary(ts) == ParseComp(v, ts[3..])
  {
    hide ParseComp, Exprs, Pratt, ParseCall;
    assert ts[1..][2..] == ts[3..];
  }

  lemma {:induction false} WholeParts(c: Tree, e: Expr)
    requires c.Comprehended? && Means(c, e) && Grouped(c, 1, 0)
    ensures e.Comp? && c.v == Ident(e.v) && Means(c.src, e.src) && MeansOption(c.cond, e.cond)
    ensures MeansOption(c.proj, e.proj) && Grouped(c.src, 1, 0)
    ensures (c.cond.Some? ==> Grouped(c.cond.value, 1, 0)) && (c.proj.Some? ==> Grouped(c.proj.value, 1, 0))
  {}

  lemma {:induction false} OptionStarts(lead: Token, c: Option<Tree>, ts: seq<Token>, rest: seq<Token>)
    requires AfterOption(lead, c, ts) == Some(rest)
    ensures if c.Some? then ts != [] && ts[0] == lead else ts == rest
  { hide After; }

  lemma {:induction false} CallRead(c: Tree, ts: seq<Token>, rest: seq<Token>, e: Expr)
    requires c.Applied? && After(c, ts) == Some(rest) && Means(c, e) && Grouped(c, 1, 0)
    ensures Primary(ts) == Ok(e, rest) && Cur(ts) != Kw(KwNot) && Cur(ts) != Plus && Cur(ts) != Minus
    decreases c, 0
  {
    assert ts[0] == [c.f, LParen][0] && ts[1] == [c.f, LParen][1];
    var a := if c.distinct then ts[3..] else ts[2..];
    hide Grouped;
    CallBody(c, a, rest, e) by { assert Grouped(c, 1, 0); }
    hide CallArgs, AfterAll, MeansAll;
    assert ParseCall(e.f, ts[2..]) == Ok(e, rest);
    NamedCall(ts, c.f, e.f) by { assert Grouped(c, 1, 0); }
  }

  lemma {:induction false} CallBody(c: Tree, a: seq<Token>, rest: seq<Token>, e: Expr)
    requires c.Applied? && Means(c, e) && forall i :: 0 <= i < |c.args| ==> Grouped(c.args[i], 1, 0)
    requires if c.star then [Star, RParen] <= a && rest == a[2..] else AfterAll(c.args, RParen, a) == Some(rest)
    ensures CallArgs(e.f, c.distinct, a) == Ok(e, rest)
    decreases c.args, 2
  {
    hide Grouped, Exprs;
    if c.star {
      assert a[0] == [Star, RParen][0] && a[1] == [Star, RParen][1];
    } else if c.args != [] {
      TextStarts(c.args[0], a, e.args[0]);
      var more := ExprsRead(c.args, RParen, a, rest, e.args);
      hide AfterAll, MeansAll;
    }
  }

  lemma {:induction false} NamedCall(ts: seq<Token>, t: Token, f: Name)
    requires |ts| >= 2 && ts[0] == t && ts[1] == LParen && NameMeans(t, f)
    requires t.Kw? ==> t.k !in QUANTIFIERS && LiteralKeyword(t.k).None? && t.k != KwNot
    ensures Primary(ts) == ParseCall(f, ts[2..])
  { hide Pratt, ListOrComp, ParseCall; }

  // ---- both -------------------------------------------------------------------------------------

  /** The parser accepts exactly the texts of the grammar, with the grouping that it
      gives them, so no text has two. */
  lemma {:induction false} ParsesIff(ts: seq<Token>, e: Expr)
    ensures Pratt(ts, 1) == Ok(e, []) <==> Derives(1, ts, [], e)
  {
    hide Pratt, After, Means, Grouped;
    if Pratt(ts, 1) == Ok(e, []) { var c := PrattSound(ts, 1); }
    if c :| Derivation(c, 1, ts, [], e) { Whole(c, ts, [], e); }
  }

  /** What the parser takes from the front of any text, at any level, is derived from that level on. */
  lemma {:induction false} PrattDerives(ts: seq<Token>, f: nat)
    requires f >= 1 && Pratt(ts, f).Ok?
    ensures Derives(f, ts, Pratt(ts, f).rest, Pratt(ts, f).e)
  {
    hide Pratt, After, Means, Grouped;
    var c := PrattSound(ts, f);
  }

  lemma {:induction false} OneMeaning(ts: seq<Token>, e: Expr, e': Expr)
    requires Derives(1, ts, [], e) && Derives(1, ts, [], e')
    ensures e == e'
  {
    hide Derives, Pratt;
    ParsesIff(ts, e);
    ParsesIff(ts, e');
  }
}
