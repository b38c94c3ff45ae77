/**
 * The productions that the language description gives for expressions, and how far
 * the parser goes beyond them: a test may stand on the left of an arithmetic
 * operator, and NOT behind a comparison, an arithmetic operator or a sign.
 */
module ExpressionEbnf {
  import opened Options
  import opened Expressions
  import opened ExpressionGrammar

  /** The production that a tree belongs to: 1 orExpr, 2 xorExpr, 3 andExpr, 4 notExpr,
      5 comparison, 6 addExpr, 7 mulExpr, 8 unaryExpr, 9 powExpr, 10 postfix. */
  function Production(c: Tree): nat {
    match c
    case Prefixed(t, _) => if t == Kw(KwNot) then 4 else 8
    case Infix(_, op, _) => Level(op)
    case Tested(_, _) => 5
    case _ => 10
  }

  /** c is derived from the production of a level or from a tighter one. */
  predicate Documented(c: Tree, level: nat)
    decreases c
  {
    level <= Production(c) &&
    match c
    case Word(_) => true
    case Parens(x) => Documented(x, 1)
    case Prefixed(t, x) => Documented(x, if t == Kw(KwNot) then 4 else 8)
    case Infix(x, op, y) =>
      var p := Level(op);
      if p == 9 then Documented(x, 10) && Documented(y, 8)
      else if p == 5 then Documented(x, 6) && Documented(y, 6)
      else 0 < p && Documented(x, p) && Documented(y, p + 1)
    case Tested(x, _) => Documented(x, 6)
    case Member(x, _) => Documented(x, 10)
    case Subscript(x, i) => Documented(x, 10) && Documented(i, 1)
    case Sliced(x, low, high) =>
      Documented(x, 10) && Documented(low, 1) && (high.Some? ==> Documented(high.value, 1))
    case Listed(xs) => forall i :: 0 <= i < |xs| ==> Documented(xs[i], 1)
    case Comprehended(_, src, cond, proj) =>
      && Documented(src, 1) && (cond.Some? ==> Documented(cond.value, 1)) && (proj.Some? ==> Documented(proj.value, 1))
    case Applied(f, _, _, args) =>
      && (f.Kw? ==> f.k !in {KwNot, KwNull, KwTrue, KwFalse, KwNan, KwInf, KwAny, KwAll, KwNone, KwSingle, KwReduce,
                             KwCase})
      && forall i :: 0 <= i < |args| ==> Documented(args[i], 1)
  }

  predicate IsNot(c: Tree) { c.Prefixed? && c.t == Kw(KwNot) }

  /** No test on the left of an arithmetic operator, and NOT behind nothing tighter than itself. */
  predicate Strict(c: Tree)
    decreases c
  {
    match c
    case Word(_) => true
    case Parens(x) => Strict(x)
    case Prefixed(t, x) => (t != Kw(KwNot) ==> !IsNot(x)) && Strict(x)
    case Infix(x, op, y) => (Level(op) >= 5 ==> !x.Tested? && !IsNot(y)) && Strict(x) && Strict(y)
    case Tested(x, _) => Strict(x)
    case Member(x, _) => Strict(x)
    case Subscript(x, i) => Strict(x) && Strict(i)
    case Sliced(x, low, high) => Strict(x) && Strict(low) && (high.Some? ==> Strict(high.value))
    case Listed(xs) => forall i :: 0 <= i < |xs| ==> Strict(xs[i])
    case Comprehended(_, src, cond, proj) =>
      Strict(src) && (cond.Some? ==> Strict(cond.value)) && (proj.Some? ==> Strict(proj.value))
    case Applied(_, _, _, args) => forall i :: 0 <= i < |args| ==> Strict(args[i])
  }

  lemma {:induction false} Lower(c: Tree, f: nat, g: nat, next: nat)
    requires Grouped(c, f, next) && g <= f
    ensures Grouped(c, g, next)
    decreases c
  {
    hide Level, Comparison;
    match c {
      case Infix(x, _, _) => Lower(x, f, g, Level(c.op));
      case Tested(x, _) => Lower(x, f, g, 5);
      case _ =>
    }
  }

  /** From which level on a tree of a production may be parsed. */
  function FloorOf(level: nat): nat { if level == 4 then 5 else if level == 8 then 9 else level }

  lemma {:induction false} DocumentedGroups(c: Tree, level: nat, next: nat)
    requires Documented(c, level) && next in {0, 1, 2, 3, 5, 6, 7, 9}
    requires next < level || (next == level && level in {1, 2, 3, 6, 7}) || level == 10
    ensures Grouped(c, FloorOf(level), next) && Strict(c)
    decreases c, 1
  {
    match c {
      case Prefixed(t, x) =>
        hide Level, Comparison;
        DocumentedGroups(x, if t == Kw(KwNot) then 4 else 8, next);
      case Infix(x, op, y) => DocumentedInfix(c, level, next);
      case Tested(x, _) =>
        DocumentedGroups(x, 6, 5);
        Lower(x, 6, FloorOf(level), 5);
      case _ => DocumentedOperand(c, FloorOf(level), next);
    }
  }

  lemma {:induction false} DocumentedInfix(c: Tree, level: nat, next: nat)
    requires c.Infix? && Documented(c, level) && next in {0, 1, 2, 3, 5, 6, 7, 9}
    requires next < level || (next == level && level in {1, 2, 3, 6, 7})
    ensures Grouped(c, FloorOf(level), next) && Strict(c)
    decreases c, 0
  {
    var x, y, p := c.left, c.right, Level(c.op);
    LevelRange(c.op);
    hide Level;
    if p == 9 {
      DocumentedGroups(x, 10, 9);
      DocumentedGroups(y, 8, next);
      Lower(x, 10, FloorOf(level), 9);
    } else if p == 5 {
      DocumentedGroups(x, 6, 5);
      DocumentedGroups(y, 6, next);
      Lower(x, 6, FloorOf(level), 5);
    } else {
      DocumentedGroups(x, p, p);
      DocumentedGroups(y, p + 1, next);
      Lower(x, p, FloorOf(level), p);
      Lower(y, FloorOf(p + 1), p + 1, next);
    }
  }

  lemma {:induction false} LevelRange(op: seq<Token>)
    ensures Level(op) in {0, 1, 2, 3, 5, 6, 7, 9}
  {}

  lemma {:induction false} PostfixOperand(c: Tree)
    requires Documented(c, 10)
    ensures Operand(c)
  {
    if c.Infix? { LevelRange(c.op); }
    hide Level;
  }

  lemma {:induction false} DocumentedOperand(c: Tree, f: nat, next: nat)
    requires Operand(c) && Documented(c, 1)
    ensures Grouped(c, f, next) && Strict(c)
    decreases c, 0
  {
    if c.Member? || c.Subscript? || c.Sliced? { PostfixOperand(c.x); }
    hide Level;
    if c.Parens? { DocumentedGroups(c.x, 1, 0); }
    else if c.Member? || c.Subscript? || c.Sliced? {
      DocumentedGroups(c.x, 10, 0);
      Lower(c.x, 10, 1, 0);
      if c.Subscript? { DocumentedGroups(c.at, 1, 0); }
      if c.Sliced? {
        DocumentedGroups(c.low, 1, 0);
        if c.high.Some? { DocumentedGroups(c.high.value, 1, 0); }
      }
    } else if c.Listed? {
      forall i | 0 <= i < |c.xs| ensures Grouped(c.xs[i], 1, 0) && Strict(c.xs[i]) { DocumentedGroups(c.xs[i], 1, 0); }
    } else if c.Comprehended? {
      DocumentedGroups(c.src, 1, 0);
      if c.cond.Some? { DocumentedGroups(c.cond.value, 1, 0); }
      if c.proj.Some? { DocumentedGroups(c.proj.value, 1, 0); }
    } else if c.Applied? {
      forall i | 0 <= i < |c.args| ensures Grouped(c.args[i], 1, 0) && Strict(c.args[i]) {
        DocumentedGroups(c.args[i], 1, 0);
      }
    }
  }

  lemma {:induction false} GroupedDocuments(c: Tree, f: nat, next: nat)
    requires f >= 1 && Grouped(c, f, next) && Strict(c)
    ensures Documented(c, Production(c)) && Production(c) >= 1
    decreases c
  {
    match c {
      case Parens(x) => GroupedDocuments(x, 1, 0);
      case Prefixed(t, x) => GroupedDocuments(x, if t == Kw(KwNot) then 5 else 9, next);
      case Infix(x, op, y) =>
        LevelRange(op);
        hide Level, Documented;
        GroupedDocuments(x, f, Level(op));
        GroupedDocuments(y, RightFloor(Level(op)), next);
        InfixDocuments(c, f, next);
      case Tested(x, _) => GroupedDocuments(x, f, 5);
      case Member(x, _) => GroupedDocuments(x, 1, 0);
      case Subscript(x, i) =>
        GroupedDocuments(x, 1, 0);
        GroupedDocuments(i, 1, 0);
      case Sliced(x, low, high) =>
        GroupedDocuments(x, 1, 0);
        GroupedDocuments(low, 1, 0);
        if high.Some? { GroupedDocuments(high.value, 1, 0); }
      case Listed(xs) =>
        forall i | 0 <= i < |xs| ensures Documented(xs[i], 1) {
          GroupedDocuments(xs[i], 1, 0);
          Looser(xs[i], 1);
        }
      case Comprehended(_, src, cond, proj) =>
        GroupedDocuments(src, 1, 0);
        if cond.Some? { GroupedDocuments(cond.value, 1, 0); }
        if proj.Some? { GroupedDocuments(proj.value, 1, 0); }
      case Applied(_, _, _, args) =>
        forall i | 0 <= i < |args| ensures Documented(args[i], 1) {
          GroupedDocuments(args[i], 1, 0);
          Looser(args[i], 1);
        }
      case _ =>
    }
  }

  lemma {:induction false} Looser(c: Tree, level: nat)
    requires Documented(c, Production(c)) && level <= Production(c)
    ensures Documented(c, level)
  {}

  lemma {:induction false} InfixDocuments(c: Tree, f: nat, next: nat)
    requires c.Infix? && f >= 1 && Grouped(c, f, next) && Strict(c) && Level(c.op) in {1, 2, 3, 5, 6, 7, 9}
    requires Documented(c.left, Production(c.left)) && Documented(c.right, Production(c.right))
    ensures Documented(c, Level(c.op))
  {
    var x, y, p := c.left, c.right, Level(c.op);
    assert Production(x) >= if p == 9 then 10 else if p == 5 then 6 else p;
    assert Production(y) >= if p == 9 then 8 else if p == 5 then 6 else p + 1;
    Looser(x, if p == 9 then 10 else if p == 5 then 6 else p);
    Looser(y, if p == 9 then 8 else if p == 5 then 6 else p + 1);
  }

  /** The productions give exactly the strict ones of the texts that the parser accepts. */
  lemma {:induction false} DocumentedIff(c: Tree)
    ensures Documented(c, 1) <==> Grouped(c, 1, 0) && Strict(c)
  {
    hide Grouped, Documented, Strict;
    if Documented(c, 1) { DocumentedGroups(c, 1, 0); }
    if Grouped(c, 1, 0) && Strict(c) {
      GroupedDocuments(c, 1, 0);
      Looser(c, 1);
    }
  }

  /** A text of the language description parses to the expression that it describes. */
  lemma {:induction false} DocumentedParses(c: Tree, ts: seq<Token>, e: Expr)
    requires Documented(c, 1) && After(c, ts) == Some([]) && Means(c, e)
    ensures Pratt(ts, 1) == Ok(e, [])
  {
    hide Documented, Grouped, After, Means, Pratt;
    DocumentedIff(c);
    Whole(c, ts, [], e);
  }

  /** `a IS NULL + b` and `a + NOT b`: the parser accepts them and the productions do not. */
  lemma {:induction false} BeyondProductions(a: Name, b: Name)
    ensures var c := Infix(Tested(Word(Ident(a)), [Kw(KwIs), Kw(KwNull)]), [Plus], Word(Ident(b)));
      !Documented(c, 1) &&
      Pratt([Ident(a), Kw(KwIs), Kw(KwNull), Plus, Ident(b)], 1) ==
        Ok(Binary(Add, Pred(Var(a), false, None), Var(b)), [])
    ensures var c := Infix(Word(Ident(a)), [Plus], Prefixed(Kw(KwNot), Word(Ident(b))));
      !Documented(c, 1) &&
      Pratt([Ident(a), Plus, Kw(KwNot), Ident(b)], 1) == Ok(Binary(Add, Var(a), Unary(Not, Var(b))), [])
  {
    TestThenPlus(a, b);
    PlusThenNot(a, b);
  }

  lemma {:induction false} LastWord(b: Name)
    ensures After(Word(Ident(b)), [Ident(b)]) == Some([])
  {
    assert [Ident(b)][1..] == [];
  }

  lemma {:induction false} TestThenPlus(a: Name, b: Name)
    ensures var c := Infix(Tested(Word(Ident(a)), [Kw(KwIs), Kw(KwNull)]), [Plus], Word(Ident(b)));
      !Documented(c, 1) &&
      Pratt([Ident(a), Kw(KwIs), Kw(KwNull), Plus, Ident(b)], 1) ==
        Ok(Binary(Add, Pred(Var(a), false, None), Var(b)), [])
  {
    hide Pratt;
    var ts := [Ident(a), Kw(KwIs), Kw(KwNull), Plus, Ident(b)];
    var x := Tested(Word(Ident(a)), [Kw(KwIs), Kw(KwNull)]);
    var c := Infix(x, [Plus], Word(Ident(b)));
    assert After(x, ts) == Some([Plus, Ident(b)]) && [Plus, Ident(b)][1..] == [Ident(b)];
    LastWord(b);
    assert After(c, ts) == Some([]);
    assert [Kw(KwIs), Kw(KwNull)][1..] == [Kw(KwNull)];
    Whole(c, ts, [], Binary(Add, Pred(Var(a), false, None), Var(b)));
  }

  lemma {:induction false} PlusNotText(a: Name, b: Name)
    ensures After(Infix(Word(Ident(a)), [Plus], Prefixed(Kw(KwNot), Word(Ident(b)))),
      [Ident(a), Plus, Kw(KwNot), Ident(b)]) == Some([])
  {
    var ts := [Ident(a), Plus, Kw(KwNot), Ident(b)];
    assert After(Word(Ident(a)), ts) == Some([Plus, Kw(KwNot), Ident(b)]);
    assert [Plus, Kw(KwNot), Ident(b)][1..] == [Kw(KwNot), Ident(b)];
    LastWord(b);
    assert [Kw(KwNot), Ident(b)][1..] == [Ident(b)];
    assert After(Prefixed(Kw(KwNot), Word(Ident(b))), [Kw(KwNot), Ident(b)]) == Some([]);
  }

  lemma {:induction false} PlusNotMeans(a: Name, b: Name)
    ensures var c := Infix(Word(Ident(a)), [Plus], Prefixed(Kw(KwNot), Word(Ident(b))));
      Means(c, Binary(Add, Var(a), Unary(Not, Var(b)))) && Grouped(c, 1, 0) && !Documented(c, 1)
  {
    var x, y := Word(Ident(a)), Prefixed(Kw(KwNot), Word(Ident(b)));
    assert Level([Plus]) == 6;
    assert Grouped(x, 1, 6) && Grouped(Word(Ident(b)), 5, 0) && Grouped(y, 7, 0) && !Comparison(x);
    assert Means(Word(Ident(b)), Var(b)) && Means(y, Unary(Not, Var(b))) && Means(x, Var(a));
    assert !Documented(y, 7);
    hide Level, Comparison;
  }

  lemma {:induction false} PlusThenNot(a: Name, b: Name)
    ensures var c := Infix(Word(Ident(a)), [Plus], Prefixed(Kw(KwNot), Word(Ident(b))));
      !Documented(c, 1) &&
      Pratt([Ident(a), Plus, Kw(KwNot), Ident(b)], 1) == Ok(Binary(Add, Var(a), Unary(Not, Var(b))), [])
  {
    hide Pratt;
    var ts := [Ident(a), Plus, Kw(KwNot), Ident(b)];
    var y := Prefixed(Kw(KwNot), Word(Ident(b)));
    var c := Infix(Word(Ident(a)), [Plus], y);
    PlusNotText(a, b);
    PlusNotMeans(a, b);
    hide After, Means, Grouped;
    Whole(c, ts, [], Binary(Add, Var(a), Unary(Not, Var(b))));
  }
}
