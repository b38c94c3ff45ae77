/** Expressions of the query language: the printer and the Pratt parser, over tokens. */
module Expressions {
  import opened Options

  datatype Keyword =
    | KwAnd | KwOr | KwXor | KwNot | KwIs | KwIn | KwStarts | KwEnds | KwContains | KwWith | KwWhere | KwDistinct
    | KwNull | KwTrue | KwFalse | KwNan | KwInf | KwAny | KwAll | KwNone | KwSingle | KwReduce | KwCase | KwOther(nat)

  /** A name is spelled like a keyword or not. */
  datatype Name = Plain(s: string) | Reserved(k: Keyword)

  datatype Token =
    | Ident(n: Name) | Kw(k: Keyword) | IntTok(i: nat) | FloatTok(f: nat) | StringTok(s: string) | ParamTok(s: string)
    | LParen | RParen | LBracket | RBracket | LBrace | Comma | Dot | DotDot | ColonColon | Pipe
    | EqTok | NotEqTok | LtTok | GtTok | LtEqTok | GtEqTok | Plus | Minus | Star | Slash | Percent | Caret | EOF

  datatype Literal = NullLit | BoolLit(b: bool) | IntLit(i: nat) | FloatLit(f: nat) | StringLit(s: string) | NaNLit
    | InfLit

  datatype UnaryOp = Not | Pos | Neg
  datatype BinaryOp = Or | Xor | And | Eq | Ne | Lt | Gt | Le | Ge | In | StartsWith | EndsWith | Contains | Add
    | Sub | Mul | Div | Mod | Pow

  datatype Expr =
    | Lit(l: Literal)
    | Var(n: Name)
    | Param(p: string)
    | Unary(u: UnaryOp, x: Expr)
    | Binary(op: BinaryOp, left: Expr, right: Expr)
    | Pred(x: Expr, negated: bool, typ: Option<Name>)
    | Property(x: Expr, n: Name)
    | Index(x: Expr, index: Expr)
    | Slice(x: Expr, low: Expr, high: Option<Expr>)
    | List(elems: seq<Expr>)
    | Comp(v: Name, src: Expr, cond: Option<Expr>, proj: Option<Expr>)
    | Call(f: Name, distinct: bool, star: bool, args: seq<Expr>)

  // ---- printing ---------------------------------------------------------------------

  function OpPrec(op: BinaryOp): nat {
    match op
    case Or => 1 case Xor => 2 case And => 3
    case Add => 6 case Sub => 6 case Mul => 7 case Div => 7 case Mod => 7 case Pow => 9
    case _ => 5
  }

  /** prec. */
  function Prec(e: Expr): nat {
    match e
    case Binary(op, _, _) => OpPrec(op)
    case Pred(_, _, _) => 5
    case Unary(u, _) => if u == Not then 4 else 8
    case Property(_, _) => 10 case Index(_, _) => 10 case Slice(_, _, _) => 10 case Call(_, _, _, _) => 10
    case _ => 11
  }

  /** paren. */
  predicate Paren(e: Expr, parent: nat, right: bool) {
    if parent == 0 then false
    else if Prec(e) < parent then true
    else if Prec(e) > parent then false
    else if parent == 5 then true
    else if e.Binary? && e.op == Pow then !right
    else right
  }

  function LiteralToken(l: Literal): Token {
    match l
    case NullLit => Kw(KwNull) case BoolLit(b) => Kw(if b then KwTrue else KwFalse)
    case IntLit(i) => IntTok(i) case FloatLit(f) => FloatTok(f) case StringLit(s) => StringTok(s)
    case NaNLit => Kw(KwNan) case InfLit => Kw(KwInf)
  }

  function OpTokens(op: BinaryOp): (ts: seq<Token>)
    ensures |ts| >= 1
  {
    match op
    case Or => [Kw(KwOr)] case Xor => [Kw(KwXor)] case And => [Kw(KwAnd)]
    case Eq => [EqTok] case Ne => [NotEqTok] case Lt => [LtTok] case Gt => [GtTok] case Le => [LtEqTok]
      case Ge => [GtEqTok]
    case In => [Kw(KwIn)] case StartsWith => [Kw(KwStarts), Kw(KwWith)] case EndsWith => [Kw(KwEnds), Kw(KwWith)]
      case Contains => [Kw(KwContains)]
    case Add => [Plus] case Sub => [Minus] case Mul => [Star] case Div => [Slash] case Mod => [Percent]
      case Pow => [Caret]
  }

  function UnaryToken(u: UnaryOp): Token { if u == Not then Kw(KwNot) else if u == Pos then Plus else Minus }

  /** A name where keywords are allowed; elsewhere a keyword is quoted into an identifier. */
  function NameToken(n: Name): Token { if n.Reserved? then Kw(n.k) else Ident(n) }

  /** expr of the builder: parentheses where the context needs them. */
  function Term(e: Expr, parent: nat, right: bool): seq<Token>
    decreases e, 1
  { if Paren(e, parent, right) then [LParen] + Print(e) + [RParen] else Print(e) }

  function Optional(lead: seq<Token>, e: Option<Expr>): seq<Token>
    decreases e, 1
  { if e.None? then [] else lead + Print(e.value) }

  /** writeExpr. */
  function Print(e: Expr): seq<Token>
    decreases e, 0
  {
    match e
    case Lit(l) => [LiteralToken(l)]
    case Var(n) => [Ident(n)]
    case Param(p) => [ParamTok(p)]
    case Unary(u, x) => [UnaryToken(u)] + Term(x, Prec(e), true)
    case Binary(op, l, r) => Term(l, Prec(e), false) + (OpTokens(op) + Term(r, Prec(e), true))
    case Pred(x, neg, typ) => Term(x, 5, false) + PredTail(neg, typ)
    case Property(x, n) => Term(x, 10, false) + [Dot, NameToken(n)]
    case Index(x, i) => Term(x, 10, false) + ([LBracket] + (Print(i) + [RBracket]))
    case Slice(x, lo, hi) => Term(x, 10, false) +
      ([LBracket] + (Print(lo) + ([DotDot] + (Optional([], hi) + [RBracket]))))
    case List(es) => [LBracket] + (Commas(es) + [RBracket])
    case Comp(v, src, cond, proj) =>
      [LBracket, Ident(v), Kw(KwIn)] +
        (Print(src) + (Optional([Kw(KwWhere)], cond) + (Optional([Pipe], proj) + [RBracket])))
    case Call(f, distinct, star, args) =>
      [NameToken(f), LParen] +
        ((if distinct then [Kw(KwDistinct)] else []) + ((if star then [Star] else Commas(args)) + [RParen]))
  }

  function PredTail(neg: bool, typ: Option<Name>): seq<Token> {
    [Kw(KwIs)] + ((if neg then [Kw(KwNot)] else []) + if typ.None? then [Kw(KwNull)]
      else [ColonColon, NameToken(typ.value)])
  }

  function Commas(es: seq<Expr>): seq<Token>
    decreases es
  {
    if es == [] then [] else if |es| == 1 then Print(es[0]) else Print(es[0]) + ([Comma] + Commas(es[1..]))
  }

  // ---- parsing ----------------------------------------------------------------------

  datatype Parsed = Ok(e: Expr, rest: seq<Token>) | Fail
  datatype ParsedList = OkList(es: seq<Expr>, more: seq<Token>) | FailList

  function Cur(ts: seq<Token>): Token { if ts == [] then EOF else ts[0] }
  function Look(ts: seq<Token>): Token { if |ts| < 2 then EOF else ts[1] }

  /** ledInfo: the precedence of a binary operator, 0 for other tokens. */
  function LedPrec(t: Token): nat {
    match t
    case Kw(KwOr) => 1 case Kw(KwXor) => 2 case Kw(KwAnd) => 3
    case Kw(KwIs) => 5 case Kw(KwIn) => 5 case Kw(KwStarts) => 5 case Kw(KwEnds) => 5 case Kw(KwContains) => 5
    case EqTok => 5 case NotEqTok => 5 case LtTok => 5 case GtTok => 5 case LtEqTok => 5 case GtEqTok => 5
    case Plus => 6 case Minus => 6 case Star => 7 case Slash => 7 case Percent => 7 case Caret => 9
    case _ => 0
  }

  function LedOp(t: Token): BinaryOp
    requires LedPrec(t) > 0 && t != Kw(KwIs)
  {
    match t
    case Kw(KwOr) => Or case Kw(KwXor) => Xor case Kw(KwAnd) => And
    case Kw(KwIn) => In case Kw(KwStarts) => StartsWith case Kw(KwEnds) => EndsWith case Kw(KwContains) => Contains
    case EqTok => Eq case NotEqTok => Ne case LtTok => Lt case GtTok => Gt case LtEqTok => Le case GtEqTok => Ge
    case Plus => Add case Minus => Sub case Star => Mul case Slash => Div case Percent => Mod case Caret => Pow
  }

  predicate IsName(t: Token) { t.Ident? || t.Kw? }
  function NameOf(t: Token): Name
    requires IsName(t)
  { if t.Ident? then t.n else Reserved(t.k) }

  /** pratt. */
  function Pratt(ts: seq<Token>, floor: nat): (r: Parsed)
    ensures r.Ok? ==> |r.rest| < |ts|
    decreases |ts|, 4
  {
    match Prefix(ts)
    case Fail => Fail
    case Ok(left, rest) => Loop(left, false, rest, floor)
  }

  /** The loop of pratt. */
  function Loop(left: Expr, prevCmp: bool, ts: seq<Token>, floor: nat): (r: Parsed)
    ensures r.Ok? ==> |r.rest| <= |ts|
    decreases |ts|, 1
  {
    var p := LedPrec(Cur(ts));
    if p == 0 || p < floor then Ok(left, ts)
    else if prevCmp && p == 5 then Fail
    else match ApplyLed(left, ts)
      case Fail => Fail
      case Ok(e, rest) => Loop(e, p == 5, rest, floor)
  }

  /** applyLed and compTail. */
  function ApplyLed(left: Expr, ts: seq<Token>): (r: Parsed)
    requires LedPrec(Cur(ts)) > 0
    ensures r.Ok? ==> |r.rest| < |ts|
    decreases |ts|, 0
  {
    var t, p := ts[0], LedPrec(ts[0]);
    if t == Kw(KwIs) then ParsePred(left, ts[1..])
    else if (t == Kw(KwStarts) || t == Kw(KwEnds)) && Look(ts) != Kw(KwWith) then Fail
    else
      var rest := if t == Kw(KwStarts) || t == Kw(KwEnds) then ts[2..] else ts[1..];
      match Pratt(rest, if p == 9 then 9 else p + 1)
      case Fail => Fail
      case Ok(right, rest') => Ok(Binary(LedOp(t), left, right), rest')
  }

  function ParsePred(left: Expr, ts: seq<Token>): (r: Parsed)
    ensures r.Ok? ==> |r.rest| <= |ts|
  {
    var neg := Cur(ts) == Kw(KwNot);
    var ts' := if neg then ts[1..] else ts;
    if Cur(ts') == ColonColon then (if IsName(Look(ts')) then Ok(Pred(left, neg, Some(NameOf(Look(ts')))), ts'[2..])
      else Fail)
    else if Cur(ts') == Kw(KwNull) then Ok(Pred(left, neg, None), ts'[1..])
    else Fail
  }

  function Prefix(ts: seq<Token>): (r: Parsed)
    ensures r.Ok? ==> |r.rest| < |ts|
    decreases |ts|, 3
  {
    var t := Cur(ts);
    if t == Kw(KwNot) || t == Plus || t == Minus then
      match Pratt(ts[1..], if t == Kw(KwNot) then 5 else 9)
      case Fail => Fail
      case Ok(x, rest) => Ok(Unary(if t == Kw(KwNot) then Not else if t == Plus then Pos else Neg, x), rest)
    else Postfix(ts)
  }

  /** parsePostfix. */
  function Postfix(ts: seq<Token>): (r: Parsed)
    ensures r.Ok? ==> |r.rest| < |ts|
    decreases |ts|, 2
  {
    match Primary(ts)
    case Fail => Fail
    case Ok(e, rest) => PostLoop(e, rest)
  }

  function PostLoop(e: Expr, ts: seq<Token>): (r: Parsed)
    ensures r.Ok? ==> |r.rest| <= |ts|
    decreases |ts|, 1
  {
    if Cur(ts) == Dot then (if IsName(Look(ts)) then PostLoop(Property(e, NameOf(Look(ts))), ts[2..]) else Fail)
    else if Cur(ts) == LBracket then
      match PostfixIndex(e, ts)
      case Fail => Fail
      case Ok(e', rest) => PostLoop(e', rest)
    else Ok(e, ts)
  }

  /** postfixIndex. */
  function PostfixIndex(e: Expr, ts: seq<Token>): (r: Parsed)
    requires ts != []
    ensures r.Ok? ==> |r.rest| < |ts|
    decreases |ts|, 0
  {
    match Pratt(ts[1..], 1)
    case Fail => Fail
    case Ok(low, rest) =>
      if Cur(rest) == DotDot then SliceEnd(e, low, rest[1..])
      else if Cur(rest) == RBracket then Ok(Index(e, low), rest[1..])
      else Fail
  }

  function SliceEnd(e: Expr, low: Expr, ts: seq<Token>): (r: Parsed)
    ensures r.Ok? ==> |r.rest| <= |ts| && r.e.Slice?
    decreases |ts|, 5
  {
    if Cur(ts) == RBracket then Ok(Slice(e, low, None), ts[1..])
    else match Pratt(ts, 1)
      case Fail => Fail
      case Ok(high, rest) => if Cur(rest) == RBracket then Ok(Slice(e, low, Some(high)), rest[1..]) else Fail
  }

  /** parsePrimary, without map literals, quantifiers, REDUCE and CASE. */
  function Primary(ts: seq<Token>): (r: Parsed)
    ensures r.Ok? ==> |r.rest| < |ts|
    decreases |ts|, 1
  {
    match Cur(ts)
    case IntTok(i) => Ok(Lit(IntLit(i)), ts[1..])
    case FloatTok(f) => Ok(Lit(FloatLit(f)), ts[1..])
    case StringTok(s) => Ok(Lit(StringLit(s)), ts[1..])
    case ParamTok(p) => Ok(Param(p), ts[1..])
    case LParen => (
      match Pratt(ts[1..], 1)
      case Fail => Fail
      case Ok(e, rest) => if Cur(rest) == RParen then Ok(e, rest[1..]) else Fail)
    case LBracket => ListOrComp(ts[1..])
    case Ident(n) => if Look(ts) == LParen then ParseCall(n, ts[2..]) else Ok(Var(n), ts[1..])
    case Kw(k) =>
      if LiteralKeyword(k).Some? then Ok(Lit(LiteralKeyword(k).value), ts[1..])
      else if k in QUANTIFIERS || Look(ts) != LParen then Fail
      else ParseCall(Reserved(k), ts[2..])
    case _ => Fail
  }

  /** Keywords that start quantifiers, REDUCE and CASE, which are not part of this model. */
  const QUANTIFIERS: set<Keyword> := {KwAny, KwAll, KwNone, KwSingle, KwReduce, KwCase}

  function LiteralKeyword(k: Keyword): Option<Literal> {
    match k
    case KwNull => Some(NullLit) case KwTrue => Some(BoolLit(true)) case KwFalse => Some(BoolLit(false))
    case KwNan => Some(NaNLit) case KwInf => Some(InfLit)
    case _ => None
  }

  function Exprs(ts: seq<Token>): (r: ParsedList)
    ensures r.OkList? ==> |r.more| < |ts|
    decreases |ts|, 5
  {
    match Pratt(ts, 1)
    case Fail => FailList
    case Ok(e, rest) =>
      if Cur(rest) != Comma then OkList([e], rest)
      else match Exprs(rest[1..])
        case FailList => FailList
        case OkList(es, more) => OkList([e] + es, more)
  }

  /** callExpr, after the parenthesis. */
  function ParseCall(f: Name, ts: seq<Token>): (r: Parsed)
    ensures r.Ok? ==> |r.rest| <= |ts|
    decreases |ts|, 7
  {
    if Cur(ts) == Kw(KwDistinct) then CallArgs(f, true, ts[1..]) else CallArgs(f, false, ts)
  }

  function CallArgs(f: Name, distinct: bool, ts: seq<Token>): (r: Parsed)
    ensures r.Ok? ==> |r.rest| <= |ts|
    decreases |ts|, 6
  {
    if Cur(ts) == Star then (if Cur(ts[1..]) == RParen then Ok(Call(f, distinct, true, []), ts[2..]) else Fail)
    else if Cur(ts) == RParen then Ok(Call(f, distinct, false, []), ts[1..])
    else match Exprs(ts)
      case FailList => Fail
      case OkList(es, more) => if Cur(more) == RParen then Ok(Call(f, distinct, false, es), more[1..]) else Fail
  }

  /** listOrComp, after the bracket. */
  function ListOrComp(ts: seq<Token>): (r: Parsed)
    ensures r.Ok? ==> |r.rest| <= |ts|
    decreases |ts|, 6
  {
    if Cur(ts).Ident? && Look(ts) == Kw(KwIn) then ParseComp(ts[0].n, ts[2..])
    else if Cur(ts) == RBracket then Ok(List([]), ts[1..])
    else match Exprs(ts)
      case FailList => Fail
      case OkList(es, more) => if Cur(more) == RBracket then Ok(List(es), more[1..]) else Fail
  }

  datatype ParsedOption = OkOption(o: Option<Expr>, after: seq<Token>) | FailOption

  function ParseOptional(lead: Token, ts: seq<Token>): (r: ParsedOption)
    ensures r.OkOption? ==> |r.after| <= |ts|
    decreases |ts|, 5
  {
    if ts == [] || ts[0] != lead then OkOption(None, ts)
    else match Pratt(ts[1..], 1)
      case Fail => FailOption
      case Ok(e, rest) => OkOption(Some(e), rest)
  }

  function ParseComp(v: Name, ts: seq<Token>): (r: Parsed)
    ensures r.Ok? ==> |r.rest| <= |ts|
    decreases |ts|, 6
  {
    match Pratt(ts, 1)
    case Fail => Fail
    case Ok(src, rest) =>
      match ParseOptional(Kw(KwWhere), rest)
      case FailOption => Fail
      case OkOption(cond, rest') =>
        match ParseOptional(Pipe, rest')
        case FailOption => Fail
        case OkOption(proj, rest'') => if Cur(rest'') == RBracket then Ok(Comp(v, src, cond, proj), rest''[1..])
          else Fail
  }
}
