// expr_join_or and expr_join_and: two operands that one expression can stand for.

module Joining {
  import opened Options
  import opened Tristates
  import opened Exprs
  import opened ExprEquality
  import Comparison

  // The symbol an operand is about, where the source looks for one.
  function FirstSymbol(e: Expr): Option<Sym> {
    match e
    case Symbol(s) => Some(s)
    case Equal(a, _) => Some(a)
    case Unequal(a, _) => Some(a)
    case Not(Symbol(s)) => Some(s)
    case Not(Equal(a, _)) => Some(a)
    case Not(Unequal(a, _)) => Some(a)
    case _ => None
  }

  function SecondSymbol(e: Expr): Option<Sym> {
    if e.Not? && !e.arg.Symbol? then None else FirstSymbol(e)
  }

  predicate BothEqual(e1: Expr, e2: Expr, a: Sym, b: Sym) {
    && e1.Equal? && e2.Equal?
    && ((e1.right == a && e2.right == b) || (e1.right == b && e2.right == a))
  }

  predicate BothUnequal(e1: Expr, e2: Expr, a: Sym, b: Sym) {
    && e1.Unequal? && e2.Unequal?
    && ((e1.right == a && e2.right == b) || (e1.right == b && e2.right == a))
  }

  predicate SymbolAndEqual(e1: Expr, e2: Expr, a: Sym) {
    (e1.Symbol? && e2.Equal? && e2.right == a) || (e2.Symbol? && e1.Equal? && e1.right == a)
  }

  predicate SymbolAndUnequal(e1: Expr, e2: Expr, a: Sym) {
    (e1.Symbol? && e2.Unequal? && e2.right == a) || (e2.Symbol? && e1.Unequal? && e1.right == a)
  }

  predicate SymbolAndNegation(e1: Expr, e2: Expr) {
    (e1.Not? && e1.arg.Symbol? && e2.Symbol?) || (e2.Not? && e2.arg.Symbol? && e1.Symbol?)
  }

  function Join(op: Op, e1: Expr, e2: Expr): ExprOpt {
    if ExprEq(e1, e2) then Some(e1)
    else
      var s1, s2 := FirstSymbol(e1), SecondSymbol(e2);
      if s1.None? || s2.None? || s1 != s2 then None
      else if s1.value.Type() != BooleanType && s1.value.Type() != TristateType then None
      else if op == OrOp then JoinOrAbout(s1.value, e1, e2)
      else JoinAndAbout(s1.value, e1, e2)
  }

  function JoinOrAbout(s: Sym, e1: Expr, e2: Expr): ExprOpt {
    if s.Type() == TristateType then
      if BothEqual(e1, e2, YES, MOD) then Some(Unequal(s, NO))
      else if BothEqual(e1, e2, YES, NO) then Some(Unequal(s, MOD))
      else if BothEqual(e1, e2, MOD, NO) then Some(Unequal(s, YES))
      else None
    else if SymbolAndNegation(e1, e2) then Some(Symbol(YES))
    else None
  }

  function JoinAndAbout(s: Sym, e1: Expr, e2: Expr): ExprOpt {
    if SymbolAndEqual(e1, e2, YES) then Some(Equal(s, YES))
    else if SymbolAndUnequal(e1, e2, NO) then Some(Symbol(s))
    else if SymbolAndUnequal(e1, e2, MOD) then Some(Equal(s, YES))
    else if s.Type() != TristateType then None
    else if e1.Equal? && e2.Unequal? && e1.right.Const? && e2.right.Const? then
      Some(if e1.right != e2.right then Equal(s, e1.right) else Symbol(NO))
    else if e1.Unequal? && e2.Equal? && e1.right.Const? && e2.right.Const? then
      Some(if e1.right != e2.right then Equal(s, e2.right) else Symbol(NO))
    else if BothUnequal(e1, e2, YES, NO) then Some(Equal(s, MOD))
    else if BothUnequal(e1, e2, YES, MOD) then Some(Equal(s, NO))
    else if BothUnequal(e1, e2, MOD, NO) then Some(Equal(s, YES))
    else None
  }

  // The string values the join rules compare.
  lemma JoinStrings(s: Sym, v: Valuation)
    requires Coherent(v)
    requires s.Type() == BooleanType || s.Type() == TristateType
    ensures v.str(s) == Letter(v.tri(s))
    ensures v.str(YES) == Letter(Yes) && v.str(MOD) == Letter(Mod) && v.str(NO) == Letter(No)
    ensures v.tri(YES) == Yes && v.tri(MOD) == Mod && v.tri(NO) == No
    ensures Letter(Yes) != Letter(Mod) && Letter(Mod) != Letter(No) && Letter(Yes) != Letter(No)
  {
    Comparison.LetterInjective(Yes, Mod);
    Comparison.LetterInjective(Mod, No);
    Comparison.LetterInjective(Yes, No);
  }

  // Joining two operands keeps their combined value, also when it is m.
  lemma JoinExact(op: Op, e1: Expr, e2: Expr, v: Valuation)
    requires Coherent(v)
    requires Join(op, e1, e2).Some?
    ensures Eval(Join(op, e1, e2).value, v) == Op3(op, Eval(e1, v), Eval(e2, v))
  {
    if ExprEq(e1, e2) {
      ExprEqSound(e1, e2, v);
      Op3Laws(op, Eval(e1, v), Eval(e1, v), Eval(e1, v));
    } else if op == OrOp {
      JoinOrExact(FirstSymbol(e1).value, e1, e2, v);
    } else {
      JoinAndExact(FirstSymbol(e1).value, e1, e2, v);
    }
  }

  ghost predicate About(s: Sym, e1: Expr, e2: Expr) {
    && FirstSymbol(e1) == Some(s) && SecondSymbol(e2) == Some(s)
    && (s.Type() == BooleanType || s.Type() == TristateType)
  }

  lemma JoinOrExact(s: Sym, e1: Expr, e2: Expr, v: Valuation)
    requires Coherent(v) && About(s, e1, e2)
    requires JoinOrAbout(s, e1, e2).Some?
    ensures Eval(JoinOrAbout(s, e1, e2).value, v) == Or3(Eval(e1, v), Eval(e2, v))
  {
    JoinStrings(s, v);
    if s.Type() == BooleanType {
      assert v.tri(s) != Mod;
    }
  }

  lemma JoinAndExact(s: Sym, e1: Expr, e2: Expr, v: Valuation)
    requires Coherent(v) && About(s, e1, e2)
    requires JoinAndAbout(s, e1, e2).Some?
    ensures Eval(JoinAndAbout(s, e1, e2).value, v) == And3(Eval(e1, v), Eval(e2, v))
  {
    JoinStrings(s, v);
    if e1.Symbol? || e2.Symbol? {
      assert SymbolAndEqual(e1, e2, YES) || SymbolAndUnequal(e1, e2, NO) || SymbolAndUnequal(e1, e2, MOD);
    } else if e1.Equal? && e2.Unequal? {
      assert v.str(e1.right) == e1.right.name && v.str(e2.right) == e2.right.name;
    } else if e1.Unequal? && e2.Equal? {
      assert v.str(e1.right) == e1.right.name && v.str(e2.right) == e2.right.name;
    } else {
      assert e1.Unequal? && e2.Unequal? && e1.left == e2.left == s;
    }
  }

  // The result is no larger than the first operand and has the same shape.
  lemma JoinShape(op: Op, e1: Expr, e2: Expr)
    requires Join(op, e1, e2).Some?
    ensures Size(Join(op, e1, e2).value) <= Size(e1)
    ensures !IsBin(op, e1) ==> !IsBin(op, Join(op, e1, e2).value)
    ensures Nnf(e1) ==> Nnf(Join(op, e1, e2).value)
    ensures ComparisonForm(e1) && ComparisonForm(e2) ==> ComparisonForm(Join(op, e1, e2).value)
  {
  }

  // Two equal operands always join.
  lemma JoinsEqual(op: Op, e1: Expr, e2: Expr)
    requires ExprEq(e1, e2)
    ensures Join(op, e1, e2) == Some(e1)
  {
  }

  // The rules ---------------------------------------------------------------------

  predicate IsPair(e1: Expr, e2: Expr, x: Expr, y: Expr) {
    (e1 == x && e2 == y) || (e1 == y && e2 == x)
  }

  // Of y, m and n the one that is neither a nor b.
  function Third(a: Sym, b: Sym): Sym {
    if a != YES && b != YES then YES else if a != MOD && b != MOD then MOD else NO
  }

  predicate TwoLiterals(a: Sym, b: Sym) {
    IsLiteral(a) && IsLiteral(b) && a != b
  }

  // What two different operands of OR become, in either order.
  predicate OrRule(s: Sym, a: Sym, b: Sym, e1: Expr, e2: Expr, r: Expr) {
    || (s.Type() == TristateType && TwoLiterals(a, b)
        && IsPair(e1, e2, Equal(s, a), Equal(s, b)) && r == Unequal(s, Third(a, b)))
    || (s.Type() == BooleanType && IsPair(e1, e2, Symbol(s), Not(Symbol(s))) && r == Symbol(YES))
  }

  // The same for AND.
  predicate AndRule(s: Sym, a: Sym, b: Sym, e1: Expr, e2: Expr, r: Expr) {
    || (IsPair(e1, e2, Symbol(s), Equal(s, YES)) && r == Equal(s, YES))
    || (IsPair(e1, e2, Symbol(s), Unequal(s, NO)) && r == Symbol(s))
    || (IsPair(e1, e2, Symbol(s), Unequal(s, MOD)) && r == Equal(s, YES))
    || (s.Type() == TristateType && a.Const? && b.Const?
        && IsPair(e1, e2, Equal(s, a), Unequal(s, b)) && r == if a == b then Symbol(NO) else Equal(s, a))
    || (s.Type() == TristateType && TwoLiterals(a, b)
        && IsPair(e1, e2, Unequal(s, a), Unequal(s, b)) && r == Equal(s, Third(a, b)))
  }

  predicate Rule(op: Op, s: Sym, a: Sym, b: Sym, e1: Expr, e2: Expr, r: Expr) {
    && (s.Type() == BooleanType || s.Type() == TristateType)
    && if op == OrOp then OrRule(s, a, b, e1, e2, r) else AndRule(s, a, b, e1, e2, r)
  }

  ghost predicate ByRule(op: Op, e1: Expr, e2: Expr, r: Expr) {
    exists s: Sym, a: Sym, b: Sym :: Rule(op, s, a, b, e1, e2, r)
  }

  // Whenever a rule fits the operands are joined by it.
  lemma RuleJoins(op: Op, s: Sym, a: Sym, b: Sym, e1: Expr, e2: Expr, r: Expr)
    requires Rule(op, s, a, b, e1, e2, r)
    ensures !ExprEq(e1, e2) && Join(op, e1, e2) == Some(r)
  {
    if op == OrOp {
      OrRuleJoins(s, a, b, e1, e2, r);
    } else {
      AndRuleJoins(s, a, b, e1, e2, r);
    }
  }

  lemma OrRuleJoins(s: Sym, a: Sym, b: Sym, e1: Expr, e2: Expr, r: Expr)
    requires OrRule(s, a, b, e1, e2, r)
    ensures About(s, e1, e2) && !ExprEq(e1, e2) && JoinOrAbout(s, e1, e2) == Some(r)
  {
    if s.Type() == TristateType {
      assert BothEqual(e1, e2, a, b);
    }
  }

  lemma AndRuleJoins(s: Sym, a: Sym, b: Sym, e1: Expr, e2: Expr, r: Expr)
    requires s.Type() == BooleanType || s.Type() == TristateType
    requires AndRule(s, a, b, e1, e2, r)
    ensures About(s, e1, e2) && !ExprEq(e1, e2) && JoinAndAbout(s, e1, e2) == Some(r)
  {
    if e1.Symbol? || e2.Symbol? {
      SymbolRuleJoins(s, a, b, e1, e2, r);
    } else if e1.Unequal? && e2.Unequal? {
      assert BothUnequal(e1, e2, a, b);
    }
  }

  lemma SymbolRuleJoins(s: Sym, a: Sym, b: Sym, e1: Expr, e2: Expr, r: Expr)
    requires s.Type() == BooleanType || s.Type() == TristateType
    requires AndRule(s, a, b, e1, e2, r) && (e1.Symbol? || e2.Symbol?)
    ensures About(s, e1, e2) && !ExprEq(e1, e2) && JoinAndAbout(s, e1, e2) == Some(r)
  {
  }

  // Nothing else is joined, except equal operands.
  lemma JoinsByRule(op: Op, e1: Expr, e2: Expr)
    requires Join(op, e1, e2).Some? && !ExprEq(e1, e2)
    ensures ByRule(op, e1, e2, Join(op, e1, e2).value)
  {
    var s, r := FirstSymbol(e1).value, Join(op, e1, e2).value;
    var a := if e1.Equal? || e1.Unequal? then e1.right else NO;
    var b := if e2.Equal? || e2.Unequal? then e2.right else NO;
    if op == OrOp {
      JoinsByOrRule(s, a, b, e1, e2);
    } else {
      JoinsByAndRule(s, a, b, e1, e2);
    }
    assert Rule(op, s, a, b, e1, e2, r) || Rule(op, s, b, a, e1, e2, r);
  }

  lemma JoinsByOrRule(s: Sym, a: Sym, b: Sym, e1: Expr, e2: Expr)
    requires About(s, e1, e2) && JoinOrAbout(s, e1, e2).Some?
    requires a == if e1.Equal? || e1.Unequal? then e1.right else NO
    requires b == if e2.Equal? || e2.Unequal? then e2.right else NO
    ensures OrRule(s, a, b, e1, e2, JoinOrAbout(s, e1, e2).value)
  {
  }

  lemma JoinsByAndRule(s: Sym, a: Sym, b: Sym, e1: Expr, e2: Expr)
    requires About(s, e1, e2) && JoinAndAbout(s, e1, e2).Some?
    requires a == if e1.Equal? || e1.Unequal? then e1.right else NO
    requires b == if e2.Equal? || e2.Unequal? then e2.right else NO
    ensures var r := JoinAndAbout(s, e1, e2).value;
      AndRule(s, a, b, e1, e2, r) || AndRule(s, b, a, e1, e2, r)
  {
  }

  // Exactly the equal operands and those that fit a rule are joined, and to this.
  lemma JoinIff(op: Op, e1: Expr, e2: Expr, r: Expr)
    ensures Join(op, e1, e2) == Some(r) <==> if ExprEq(e1, e2) then r == e1 else ByRule(op, e1, e2, r)
  {
    if !ExprEq(e1, e2) {
      if Join(op, e1, e2) == Some(r) {
        JoinsByRule(op, e1, e2);
      }
      if ByRule(op, e1, e2, r) {
        var s: Sym, a: Sym, b: Sym :| Rule(op, s, a, b, e1, e2, r);
        RuleJoins(op, s, a, b, e1, e2, r);
      }
    }
  }

  // Equal operands, or two that a rule replaces by one.
  ghost predicate Fits(op: Op, e1: Expr, e2: Expr) {
    ExprEq(e1, e2) || exists r: Expr :: ByRule(op, e1, e2, r)
  }

  lemma FitsIff(op: Op, e1: Expr, e2: Expr)
    ensures Fits(op, e1, e2) <==> Join(op, e1, e2).Some?
  {
    if Join(op, e1, e2).Some? {
      JoinIff(op, e1, e2, Join(op, e1, e2).value);
    }
    if !ExprEq(e1, e2) && Fits(op, e1, e2) {
      var r: Expr :| ByRule(op, e1, e2, r);
      JoinIff(op, e1, e2, r);
    }
  }
}
