// expr_transform: negations are pushed down to the symbols and comparisons of
// boolean symbols become the symbols themselves.

module Transformation {
  import opened Options
  import opened Tristates
  import opened Exprs

  // A NOT costs twice its operand, so that pushing it down gets cheaper.
  function Weight(e: Expr): (n: nat)
    ensures n >= 1
  {
    match e
    case Symbol(_) => 1
    case Equal(_, _) => 2
    case Unequal(_, _) => 2
    case Not(a) => 2 * Weight(a)
    case Bin(_, l, r) => Weight(l) + Weight(r) + 1
  }

  lemma DeMorganLighter(op: Op, l: Expr, r: Expr)
    ensures Weight(Bin(Dual(op), Not(l), Not(r))) < 2 * Weight(Bin(op, l, r))
  {
    assert Weight(Not(l)) == 2 * Weight(l) && Weight(Not(r)) == 2 * Weight(r);
  }

  function Transform(e: Expr): (r: Expr)
    ensures Weight(r) <= Weight(e)
    decreases Weight(e)
  {
    match e
    case Symbol(_) => e
    case Equal(a, b) =>
      if a.Type() != BooleanType then e
      else if b == NO then Not(Symbol(a))
      else if b == MOD then Symbol(NO)
      else if b == YES then Symbol(a)
      else e
    case Unequal(a, b) =>
      if a.Type() != BooleanType then e
      else if b == NO then Symbol(a)
      else if b == MOD then Symbol(YES)
      else if b == YES then Not(Symbol(a))
      else e
    case Bin(op, l, r) => Bin(op, Transform(l), Transform(r))
    case Not(a0) =>
      var a := Transform(a0);
      match a
      case Not(x) => Transform(x)
      case Equal(x, y) => Unequal(x, y)
      case Unequal(x, y) => Equal(x, y)
      case Bin(op, l, r) =>
        assert Weight(Bin(Dual(op), Not(l), Not(r))) < Weight(e) by { DeMorganLighter(op, l, r); }
        Transform(Bin(Dual(op), Not(l), Not(r)))
      case Symbol(s) =>
        if s == YES then Symbol(NO)
        else if s == MOD then Symbol(MOD)
        else if s == NO then Symbol(YES)
        else Not(a)
  }

  function TransformOpt(e: ExprOpt): ExprOpt {
    if e.None? then None else Some(Transform(e.value))
  }

  lemma {:induction false} TransformValue(e: Expr, v: Valuation)
    requires Coherent(v)
    ensures Eval(Transform(e), v) == Eval(e, v)
    decreases Weight(e)
  {
    match e
    case Symbol(_) =>
    case Equal(a, b) => BooleanComparison(a, b, v);
    case Unequal(a, b) => BooleanComparison(a, b, v);
    case Bin(op, l, r) =>
      TransformValue(l, v);
      TransformValue(r, v);
    case Not(a0) =>
      TransformValue(a0, v);
      var a := Transform(a0);
      match a
      case Not(x) => TransformValue(x, v);
      case Bin(op, l, r) =>
        DeMorganLighter(op, l, r);
        TransformValue(Bin(Dual(op), Not(l), Not(r)), v);
      case _ => assert v.tri(YES) == Yes && v.tri(NO) == No && v.tri(MOD) == Mod;
  }

  // A boolean symbol is n or y, and its string value is that letter.
  lemma BooleanComparison(a: Sym, b: Sym, v: Valuation)
    requires Coherent(v)
    ensures a.Type() == BooleanType ==> Eval(Transform(Equal(a, b)), v) == Eval(Equal(a, b), v)
    ensures a.Type() == BooleanType ==> Eval(Transform(Unequal(a, b)), v) == Eval(Unequal(a, b), v)
  {
    if a.Type() == BooleanType {
      assert v.tri(a) != Mod && v.str(a) == Letter(v.tri(a));
      assert v.str(YES) == "y" && v.str(MOD) == "m" && v.str(NO) == "n";
      assert v.tri(YES) == Yes && v.tri(NO) == No;
      assert "y" != "n" by { assert "y"[0] != "n"[0]; }
      assert "y" != "m" by { assert "y"[0] != "m"[0]; }
      assert "m" != "n" by { assert "m"[0] != "n"[0]; }
    }
  }

  // The form expr_transform produces.
  predicate Normal(e: Expr) {
    match e
    case Symbol(_) => true
    case Equal(a, b) => a.Type() == BooleanType ==> !IsLiteral(b)
    case Unequal(a, b) => a.Type() == BooleanType ==> !IsLiteral(b)
    case Not(a) => a.Symbol? && !IsLiteral(a.sym)
    case Bin(_, l, r) => Normal(l) && Normal(r)
  }

  lemma {:induction false} NormalIsNnf(e: Expr)
    requires Normal(e)
    ensures Nnf(e)
  {
    if e.Bin? {
      NormalIsNnf(e.l);
      NormalIsNnf(e.r);
    }
  }

  lemma {:induction false} TransformNormal(e: Expr)
    ensures Normal(Transform(e))
    decreases Weight(e)
  {
    match e
    case Bin(op, l, r) =>
      TransformNormal(l);
      TransformNormal(r);
    case Not(a0) =>
      TransformNormal(a0);
      match Transform(a0) {
        case Not(x) => TransformNormal(x);
        case Bin(op, l, r) =>
          DeMorganLighter(op, l, r);
          TransformNormal(Bin(Dual(op), Not(l), Not(r)));
        case _ =>
      }
    case _ =>
  }

  // Comparisons, bool symbols, y and n, below any operators
  predicate OverComparisons(e: Expr) {
    match e
    case Symbol(s) => s.Type() == BooleanType || s == YES || s == NO
    case Not(a) => OverComparisons(a)
    case Bin(_, l, r) => OverComparisons(l) && OverComparisons(r)
    case _ => true
  }

  lemma {:induction false} FormIsOverComparisons(e: Expr)
    requires ComparisonForm(e)
    ensures OverComparisons(e)
  {
    if e.Bin? {
      FormIsOverComparisons(e.l);
      FormIsOverComparisons(e.r);
    }
  }

  lemma {:induction false} TransformForm(e: Expr)
    requires OverComparisons(e)
    ensures ComparisonForm(Transform(e))
    decreases Weight(e)
  {
    match e
    case Bin(_, l, r) =>
      TransformForm(l);
      TransformForm(r);
    case Not(a0) =>
      TransformForm(a0);
      match Transform(a0) {
        case Not(x) => TransformForm(x);
        case Bin(op, l, r) =>
          DeMorganLighter(op, l, r);
          FormIsOverComparisons(l);
          FormIsOverComparisons(r);
          TransformForm(Bin(Dual(op), Not(l), Not(r)));
        case _ =>
      }
    case _ =>
  }

  lemma {:induction false} TransformFixesNormal(e: Expr)
    requires Normal(e)
    ensures Transform(e) == e
  {
    if e.Bin? {
      TransformFixesNormal(e.l);
      TransformFixesNormal(e.r);
    }
  }

  // One pass is enough, and it keeps the value.
  lemma TransformCorrect(e: Expr)
    ensures Equivalent(Transform(e), e)
    ensures Nnf(Transform(e))
    ensures Transform(Transform(e)) == Transform(e)
  {
    forall v: Valuation | Coherent(v)
      ensures Eval(Transform(e), v) == Eval(e, v)
    {
      TransformValue(e, v);
    }
    TransformNormal(e);
    NormalIsNnf(Transform(e));
    TransformFixesNormal(Transform(e));
  }
}
