// Equality of expressions up to the order and grouping of operands, and the
// elimination of common operands (expr_eq, expr_eliminate_eq, expr_eliminate_yn).

module ExprEquality {
  import opened Tristates
  import opened Exprs

  // One AND or OR whose operands have been cleared: one operand may take over, the other
  // disappears.
  function CombineWith(op: Op, zero: Expr, unit: Expr, l: Expr, r: Expr): Expr {
    if l == zero then zero
    else if l == unit then r
    else if r == zero then zero
    else if r == unit then l
    else Bin(op, l, r)
  }

  function CombineYN(op: Op, l: Expr, r: Expr): Expr {
    CombineWith(op, Symbol(Zero(op)), Symbol(Unit(op)), l, r)
  }

  // expr_eliminate_yn: y and n operands of AND and OR disappear or take over.
  function EliminateYN(e: Expr): (r: Expr)
    ensures Size(r) <= Size(e)
  {
    match e
    case Bin(op, l, r) => CombineYN(op, EliminateYN(l), EliminateYN(r))
    case _ => e
  }

  // __expr_eliminate_eq: every operand of e1 meets every operand of e2, and two
  // equal ones are both replaced by the unit of op.
  function EliminatePairs(op: Op, e1: Expr, e2: Expr): (p: (Expr, Expr))
    ensures Size(p.0) <= Size(e1) && Size(p.1) <= Size(e2)
    decreases Size(e1) + Size(e2), if IsBin(op, e1) || IsBin(op, e2) then 0 else 4
  {
    if IsBin(op, e1) then
      var left := EliminatePairs(op, e1.l, e2);
      var right := EliminatePairs(op, e1.r, left.1);
      (Bin(op, left.0, right.0), right.1)
    else if IsBin(op, e2) then
      var left := EliminatePairs(op, e1, e2.l);
      var right := EliminatePairs(op, left.0, e2.r);
      (right.0, Bin(op, left.1, right.1))
    else if e1.Symbol? && e2.Symbol? && e1.sym == e2.sym && (e1.sym == YES || e1.sym == NO) then
      (e1, e2)
    else if ExprEq(e1, e2) then
      (Symbol(Unit(op)), Symbol(Unit(op)))
    else
      (e1, e2)
  }

  predicate SameType(e1: Expr, e2: Expr) {
    match e1
    case Symbol(_) => e2.Symbol?
    case Equal(_, _) => e2.Equal?
    case Unequal(_, _) => e2.Unequal?
    case Not(_) => e2.Not?
    case Bin(op, _, _) => IsBin(op, e2)
  }

  // expr_eliminate_eq on two expressions that are not NULL.
  function EliminateEq(e1: Expr, e2: Expr): (p: (Expr, Expr))
    ensures Size(p.0) <= Size(e1) && Size(p.1) <= Size(e2)
    decreases Size(e1) + Size(e2), 2
  {
    var first := FirstPass(e1, e2);
    var second := SecondPass(first.0, first.1);
    (EliminateYN(second.0), EliminateYN(second.1))
  }

  function FirstPass(e1: Expr, e2: Expr): (p: (Expr, Expr))
    ensures Size(p.0) <= Size(e1) && Size(p.1) <= Size(e2)
    decreases Size(e1) + Size(e2), 1
  {
    if e1.Bin? then EliminatePairs(e1.op, e1, e2) else (e1, e2)
  }

  function SecondPass(a: Expr, b: Expr): (p: (Expr, Expr))
    ensures Size(p.0) <= Size(a) && Size(p.1) <= Size(b)
    decreases Size(a) + Size(b), 1
  {
    if !SameType(a, b) && b.Bin? then EliminatePairs(b.op, a, b) else (a, b)
  }

  // expr_eq
  predicate ExprEq(e1: Expr, e2: Expr)
    decreases Size(e1) + Size(e2), 3
  {
    SameType(e1, e2) &&
    match e1
    case Symbol(s) => s == e2.sym
    case Equal(a, b) => a == e2.left && b == e2.right
    case Unequal(a, b) => a == e2.left && b == e2.right
    case Not(a) => ExprEq(a, e2.arg)
    case Bin(_, _, _) =>
      var rest := EliminateEq(e1, e2);
      rest.0.Symbol? && rest.1.Symbol? && rest.0.sym == rest.1.sym
  }

  // Meaning -------------------------------------------------------------------

  lemma EndValues(op: Op, v: Valuation)
    requires v.tri(YES) == Yes && v.tri(NO) == No
    ensures v.tri(Unit(op)) == (if op == OrOp then No else Yes)
    ensures v.tri(Zero(op)) == (if op == OrOp then Yes else No)
  {
  }

  lemma ZeroOperand(op: Op, x: Tristate, zero: Tristate)
    requires zero == (if op == OrOp then Yes else No)
    ensures Op3(op, zero, x) == zero && Op3(op, x, zero) == zero
  {
  }

  lemma UnitOperand(op: Op, x: Tristate, unit: Tristate)
    requires unit == (if op == OrOp then No else Yes)
    ensures Op3(op, unit, x) == x && Op3(op, x, unit) == x
  {
  }

  lemma CombineWithValue(op: Op, zero: Expr, unit: Expr, l: Expr, r: Expr, v: Valuation)
    requires Eval(zero, v) == (if op == OrOp then Yes else No)
    requires Eval(unit, v) == (if op == OrOp then No else Yes)
    ensures Eval(CombineWith(op, zero, unit, l, r), v) == Op3(op, Eval(l, v), Eval(r, v))
  {
    var x, y := Eval(l, v), Eval(r, v);
    if l == zero {
      ZeroOperand(op, y, x);
    } else if l == unit {
      UnitOperand(op, y, x);
    } else if r == zero {
      ZeroOperand(op, x, y);
    } else if r == unit {
      UnitOperand(op, x, y);
    }
  }

  lemma CombineYNValue(op: Op, l: Expr, r: Expr, v: Valuation)
    requires v.tri(YES) == Yes && v.tri(NO) == No
    ensures Eval(CombineYN(op, l, r), v) == Op3(op, Eval(l, v), Eval(r, v))
  {
    EndValues(op, v);
    CombineWithValue(op, Symbol(Zero(op)), Symbol(Unit(op)), l, r, v);
  }

  // Eliminating y and n never changes the value.
  lemma {:induction false} EliminateYNValue(e: Expr, v: Valuation)
    requires Coherent(v)
    ensures Eval(EliminateYN(e), v) == Eval(e, v)
  {
    if e.Bin? {
      EliminateYNValue(e.l, v);
      EliminateYNValue(e.r, v);
      assert v.tri(YES) == Yes && v.tri(NO) == No;
      CombineYNValue(e.op, EliminateYN(e.l), EliminateYN(e.r), v);
    }
  }

  // Both results lack the same common operand c: e1 == a op c and e2 == b op c.
  lemma {:induction false} EliminatePairsFactor(op: Op, e1: Expr, e2: Expr, v: Valuation) returns (c: Tristate)
    requires Coherent(v)
    ensures var p := EliminatePairs(op, e1, e2);
      && Eval(e1, v) == Op3(op, Eval(p.0, v), c)
      && Eval(e2, v) == Op3(op, Eval(p.1, v), c)
    decreases Size(e1) + Size(e2), if IsBin(op, e1) || IsBin(op, e2) then 0 else 4
  {
    var p := EliminatePairs(op, e1, e2);
    if IsBin(op, e1) {
      var left := EliminatePairs(op, e1.l, e2);
      var c1 := EliminatePairsFactor(op, e1.l, e2, v);
      var c2 := EliminatePairsFactor(op, e1.r, left.1, v);
      c := Op3(op, c1, c2);
      Op3Shuffle(op, Eval(p.0.l, v), c1, Eval(p.0.r, v), c2);
      Op3Laws(op, Eval(p.1, v), c2, c1);
      Op3Laws(op, c1, c2, c2);
    } else if IsBin(op, e2) {
      var left := EliminatePairs(op, e1, e2.l);
      var c1 := EliminatePairsFactor(op, e1, e2.l, v);
      var c2 := EliminatePairsFactor(op, left.0, e2.r, v);
      c := Op3(op, c1, c2);
      Op3Shuffle(op, Eval(p.1.l, v), c1, Eval(p.1.r, v), c2);
      Op3Laws(op, Eval(p.0, v), c2, c1);
      Op3Laws(op, c1, c2, c2);
    } else {
      c := if p != (e1, e2) then Eval(e1, v) else v.tri(Unit(op));
      Op3Unit(op, Eval(e1, v), v);
      Op3Unit(op, Eval(e2, v), v);
      if p != (e1, e2) {
        ExprEqSound(e1, e2, v);
      }
    }
  }

  // expr_eq answers 1 only for expressions of equal value.
  lemma {:induction false} ExprEqSound(e1: Expr, e2: Expr, v: Valuation)
    requires Coherent(v)
    requires ExprEq(e1, e2)
    ensures Eval(e1, v) == Eval(e2, v)
    decreases Size(e1) + Size(e2), 3
  {
    match e1
    case Not(a) => ExprEqSound(a, e2.arg, v);
    case Bin(op, _, _) =>
      var c := EliminatePairsFactor(op, e1, e2, v);
      var p := EliminatePairs(op, e1, e2);
      EliminatePairsShape(op, e1, e2);
      assert FirstPass(e1, e2) == p && SecondPass(p.0, p.1) == p;
      EliminateYNValue(p.0, v);
      EliminateYNValue(p.1, v);
    case _ =>
  }

  // The operand tree above the replaced operands stays.
  lemma EliminatePairsShape(op: Op, e1: Expr, e2: Expr)
    ensures var p := EliminatePairs(op, e1, e2);
      (IsBin(op, e1) ==> IsBin(op, p.0)) && (IsBin(op, e2) ==> IsBin(op, p.1))
  {
  }

  // How often the operand that swallows the others is an operand of the op tree e
  function Zeros(op: Op, e: Expr): nat {
    if IsBin(op, e) then Zeros(op, e.l) + Zeros(op, e.r) else if e == Symbol(Zero(op)) then 1 else 0
  }

  // y and n are not eliminated against each other: an operand that decides the value of its
  // side stays there, even if both sides have it.
  lemma {:induction false} ZerosStay(op: Op, e1: Expr, e2: Expr)
    ensures var p := EliminatePairs(op, e1, e2);
      Zeros(op, p.0) == Zeros(op, e1) && Zeros(op, p.1) == Zeros(op, e2)
    decreases Size(e1) + Size(e2), if IsBin(op, e1) || IsBin(op, e2) then 0 else 4
  {
    if IsBin(op, e1) {
      ZerosStay(op, e1.l, e2);
      ZerosStay(op, e1.r, EliminatePairs(op, e1.l, e2).1);
    } else if IsBin(op, e2) {
      ZerosStay(op, e1, e2.l);
      ZerosStay(op, EliminatePairs(op, e1, e2.l).0, e2.r);
    }
  }

  // If eliminating common operands leaves y of e2, then e1 is at most e2
  // whatever the symbols are.
  lemma EliminateEqImplies(e1: Expr, e2: Expr, v: Valuation)
    requires Coherent(v)
    requires EliminateEq(e1, e2).1 == Symbol(YES)
    ensures Le(Eval(e1, v), Eval(e2, v))
  {
    var first := FirstPass(e1, e2);
    PassesImply(e1, e2, first, SecondPass(first.0, first.1), v);
  }

  lemma PassesImply(e1: Expr, e2: Expr, first: (Expr, Expr), second: (Expr, Expr), v: Valuation)
    requires Coherent(v) && EliminateYN(second.1) == Symbol(YES)
    requires first == FirstPass(e1, e2) && second == SecondPass(first.0, first.1)
    ensures Le(Eval(e1, v), Eval(e2, v))
  {
    EliminatedYes(second.1, v);
    SecondPassOrder(first.0, first.1, second, v);
    FirstPassOrder(e1, e2, first, v);
  }

  lemma FirstPassOrder(e1: Expr, e2: Expr, p: (Expr, Expr), v: Valuation)
    requires Coherent(v) && p == FirstPass(e1, e2) && Le(Eval(p.0, v), Eval(p.1, v))
    ensures Le(Eval(e1, v), Eval(e2, v))
  {
    if e1.Bin? {
      EliminatePairsOrder(e1.op, e1, e2, p, v);
    }
  }

  lemma SecondPassOrder(a: Expr, b: Expr, p: (Expr, Expr), v: Valuation)
    requires Coherent(v) && p == SecondPass(a, b) && Le(Eval(p.0, v), Eval(p.1, v))
    ensures Le(Eval(a, v), Eval(b, v))
  {
    if !SameType(a, b) && b.Bin? {
      EliminatePairsOrder(b.op, a, b, p, v);
    }
  }

  lemma EliminatedYes(e: Expr, v: Valuation)
    requires Coherent(v) && EliminateYN(e) == Symbol(YES)
    ensures Eval(e, v) == Yes
  {
    EliminateYNValue(e, v);
    assert v.tri(YES) == Yes;
  }

  lemma EliminatePairsOrder(op: Op, e1: Expr, e2: Expr, p: (Expr, Expr), v: Valuation)
    requires Coherent(v)
    requires p == EliminatePairs(op, e1, e2) && Le(Eval(p.0, v), Eval(p.1, v))
    ensures Le(Eval(e1, v), Eval(e2, v))
  {
    var c := EliminatePairsFactor(op, e1, e2, v);
  }

  // Nothing is left to eliminate.
  predicate FreeOfYN(e: Expr) {
    e.Bin? ==>
      && FreeOfYN(e.l) && FreeOfYN(e.r)
      && e.l != Symbol(YES) && e.l != Symbol(NO) && e.r != Symbol(YES) && e.r != Symbol(NO)
  }

  lemma CombineYNComplete(op: Op, l: Expr, r: Expr)
    requires FreeOfYN(l) && FreeOfYN(r)
    ensures FreeOfYN(CombineYN(op, l, r))
    ensures Size(CombineYN(op, l, r)) <= 1 + Size(l) + Size(r)
    ensures FreeOfYN(Bin(op, l, r)) <==> CombineYN(op, l, r) == Bin(op, l, r)
    ensures FreeOfYN(Bin(op, l, r)) <==> Size(CombineYN(op, l, r)) == 1 + Size(l) + Size(r)
  {
  }

  lemma {:induction false} EliminateYNComplete(e: Expr)
    ensures FreeOfYN(EliminateYN(e))
    ensures FreeOfYN(e) <==> EliminateYN(e) == e
    ensures FreeOfYN(e) <==> Size(EliminateYN(e)) == Size(e)
  {
    if e.Bin? {
      EliminateYNComplete(e.l);
      EliminateYNComplete(e.r);
      CombineYNComplete(e.op, EliminateYN(e.l), EliminateYN(e.r));
    }
  }

  lemma {:induction false} EliminateYNForm(e: Expr)
    requires ComparisonForm(e)
    ensures ComparisonForm(EliminateYN(e))
  {
    if e.Bin? {
      EliminateYNForm(e.l);
      EliminateYNForm(e.r);
    }
  }

  lemma {:induction false} EliminateYNNnf(e: Expr)
    requires Nnf(e)
    ensures Nnf(EliminateYN(e))
  {
    if e.Bin? {
      EliminateYNNnf(e.l);
      EliminateYNNnf(e.r);
    }
  }
}
