// expr_extract_eq: the operands two expressions share are moved out of both.

module Extraction {
  import opened Options
  import opened Tristates
  import opened Exprs
  import opened ExprEquality
  import opened Canonical

  datatype Extracted = Extracted(common: ExprOpt, fst: Expr, snd: Expr)

  // expr_extract_eq; common is what *ep holds so far.
  function ExtractEq(op: Op, common: ExprOpt, e1: Expr, e2: Expr): (x: Extracted)
    ensures Size(x.fst) <= Size(e1) && Size(x.snd) <= Size(e2)
    decreases Size(e1) + Size(e2)
  {
    if IsBin(op, e1) then
      var left := ExtractEq(op, common, e1.l, e2);
      var right := ExtractEq(op, left.common, e1.r, left.snd);
      Extracted(right.common, Bin(op, left.fst, right.fst), right.snd)
    else if IsBin(op, e2) then
      var left := ExtractEq(op, common, e1, e2.l);
      var right := ExtractEq(op, left.common, left.fst, e2.r);
      Extracted(right.common, right.fst, Bin(op, left.snd, right.snd))
    else if ExprEq(e1, e2) then
      Extracted(Some(if common.Some? then Bin(op, common.value, e1) else e1), Symbol(Unit(op)), Symbol(Unit(op)))
    else
      Extracted(common, e1, e2)
  }

  // expr_extract_eq_and and expr_extract_eq_or
  function Extract(op: Op, e1: Expr, e2: Expr): Extracted {
    var x := ExtractEq(op, None, e1, e2);
    if x.common.Some? then Extracted(x.common, EliminateYN(x.fst), EliminateYN(x.snd)) else x
  }

  // The value of a list of extracted operands; an empty list is the unit.
  function CommonValue(op: Op, common: ExprOpt, v: Valuation): Tristate {
    if common.Some? then Eval(common.value, v) else v.tri(Unit(op))
  }

  ghost predicate Factors(op: Op, e: Expr, rest: Expr, c: Tristate, v: Valuation) {
    Eval(e, v) == Op3(op, Eval(rest, v), c)
  }

  lemma {:induction false} ExtractEqFactor(op: Op, common: ExprOpt, e1: Expr, e2: Expr, v: Valuation)
      returns (c: Tristate)
    requires Coherent(v)
    ensures var x := ExtractEq(op, common, e1, e2);
      && Factors(op, e1, x.fst, c, v) && Factors(op, e2, x.snd, c, v)
      && CommonValue(op, x.common, v) == Op3(op, CommonValue(op, common, v), c)
    decreases Size(e1) + Size(e2)
  {
    if IsBin(op, e1) {
      var left := ExtractEq(op, common, e1.l, e2);
      var right := ExtractEq(op, left.common, e1.r, left.snd);
      var c1 := ExtractEqFactor(op, common, e1.l, e2, v);
      var c2 := ExtractEqFactor(op, left.common, e1.r, left.snd, v);
      c := Op3(op, c1, c2);
      JoinFactors(op, e1.l, left.fst, e1.r, right.fst, c1, c2, v);
      ChainFactors(op, e2, left.snd, right.snd, c1, c2, v);
      Op3Laws(op, CommonValue(op, common, v), c1, c2);
    } else if IsBin(op, e2) {
      var left := ExtractEq(op, common, e1, e2.l);
      var right := ExtractEq(op, left.common, left.fst, e2.r);
      var c1 := ExtractEqFactor(op, common, e1, e2.l, v);
      var c2 := ExtractEqFactor(op, left.common, left.fst, e2.r, v);
      c := Op3(op, c1, c2);
      JoinFactors(op, e2.l, left.snd, e2.r, right.snd, c1, c2, v);
      ChainFactors(op, e1, left.fst, right.fst, c1, c2, v);
      Op3Laws(op, CommonValue(op, common, v), c1, c2);
    } else {
      c := ExtractLeafFactor(op, common, e1, e2, v);
    }
  }

  lemma ExtractLeafFactor(op: Op, common: ExprOpt, e1: Expr, e2: Expr, v: Valuation) returns (c: Tristate)
    requires Coherent(v) && !IsBin(op, e1) && !IsBin(op, e2)
    ensures var x := ExtractEq(op, common, e1, e2);
      && Factors(op, e1, x.fst, c, v) && Factors(op, e2, x.snd, c, v)
      && CommonValue(op, x.common, v) == Op3(op, CommonValue(op, common, v), c)
  {
    c := if ExprEq(e1, e2) then Eval(e1, v) else v.tri(Unit(op));
    Op3Unit(op, Eval(e1, v), v);
    Op3Unit(op, Eval(e2, v), v);
    Op3Unit(op, CommonValue(op, common, v), v);
    if ExprEq(e1, e2) {
      ExprEqSound(e1, e2, v);
    }
  }

  lemma JoinFactors(op: Op, l: Expr, l': Expr, r: Expr, r': Expr, c1: Tristate, c2: Tristate, v: Valuation)
    requires Factors(op, l, l', c1, v) && Factors(op, r, r', c2, v)
    ensures Factors(op, Bin(op, l, r), Bin(op, l', r'), Op3(op, c1, c2), v)
  {
    Op3Shuffle(op, Eval(l', v), c1, Eval(r', v), c2);
  }

  lemma ChainFactors(op: Op, e: Expr, e': Expr, e'': Expr, c1: Tristate, c2: Tristate, v: Valuation)
    requires Factors(op, e, e', c1, v) && Factors(op, e', e'', c2, v)
    ensures Factors(op, e, e'', Op3(op, c1, c2), v)
  {
    Op3Laws(op, Eval(e'', v), c2, c1);
    Op3Laws(op, c1, c2, c2);
  }

  // Each original is the extracted part combined with what is left of it.
  lemma ExtractExact(op: Op, e1: Expr, e2: Expr, v: Valuation)
    requires Coherent(v)
    ensures var x := Extract(op, e1, e2);
      && Eval(e1, v) == Op3(op, CommonValue(op, x.common, v), Eval(x.fst, v))
      && Eval(e2, v) == Op3(op, CommonValue(op, x.common, v), Eval(x.snd, v))
  {
    var x := ExtractEq(op, None, e1, e2);
    var c := ExtractEqFactor(op, None, e1, e2, v);
    Op3Unit(op, c, v);
    EliminateYNValue(x.fst, v);
    EliminateYNValue(x.snd, v);
    Op3Laws(op, Eval(x.fst, v), c, c);
    Op3Laws(op, Eval(x.snd, v), c, c);
  }

  // Without y and n the same pairs meet as in the elimination, so the two
  // remainders have no operand in common.
  lemma {:induction false} ExtractEqRest(op: Op, common: ExprOpt, e1: Expr, e2: Expr)
    requires Pruned(op, e1) && Pruned(op, e2)
    ensures var x := ExtractEq(op, common, e1, e2);
      EliminatePairs(op, e1, e2) == (x.fst, x.snd)
    decreases Size(e1) + Size(e2)
  {
    if IsBin(op, e1) {
      var left := ExtractEq(op, common, e1.l, e2);
      ExtractEqRest(op, common, e1.l, e2);
      EliminatePairsComplete(op, e1.l, e2);
      ExtractEqRest(op, left.common, e1.r, left.snd);
    } else if IsBin(op, e2) {
      var left := ExtractEq(op, common, e1, e2.l);
      ExtractEqRest(op, common, e1, e2.l);
      EliminatePairsComplete(op, e1, e2.l);
      ExtractEqRest(op, left.common, left.fst, e2.r);
    } else {
      ExtractLeafRest(op, common, e1, e2);
    }
  }

  lemma ExtractLeafRest(op: Op, common: ExprOpt, e1: Expr, e2: Expr)
    requires Pruned(op, e1) && Pruned(op, e2) && !IsBin(op, e1) && !IsBin(op, e2)
    ensures var x := ExtractEq(op, common, e1, e2);
      EliminatePairs(op, e1, e2) == (x.fst, x.snd)
  {
    if e1 == Symbol(Unit(op)) || e2 == Symbol(Unit(op)) {
      assert !LiteralFree(Symbol(Unit(op)));
    }
  }

  // The extracted part is as large as it can be: no operand is left in both.
  lemma ExtractEqMaximal(op: Op, e1: Expr, e2: Expr)
    requires LiteralFree(e1) && LiteralFree(e2)
    ensures var x := ExtractEq(op, None, e1, e2);
      && Live(op, x.fst) == Operands(op, e1) - Operands(op, e2)
      && Live(op, x.snd) == Operands(op, e2) - Operands(op, e1)
  {
    LiteralFreePruned(op, e1);
    LiteralFreePruned(op, e2);
    ExtractEqRest(op, None, e1, e2);
    EliminatePairsComplete(op, e1, e2);
  }

  lemma {:induction false} ExtractEqNothing(op: Op, common: ExprOpt, e1: Expr, e2: Expr)
    requires ExtractEq(op, common, e1, e2).common.None?
    ensures common.None? && ExtractEq(op, common, e1, e2).fst == e1
    decreases Size(e1) + Size(e2)
  {
    if IsBin(op, e1) {
      var left := ExtractEq(op, common, e1.l, e2);
      ExtractEqNothing(op, left.common, e1.r, left.snd);
      ExtractEqNothing(op, common, e1.l, e2);
    } else if IsBin(op, e2) {
      var left := ExtractEq(op, common, e1, e2.l);
      ExtractEqNothing(op, left.common, left.fst, e2.r);
      ExtractEqNothing(op, common, e1, e2.l);
    }
  }

  // Nothing is left of e1 exactly when all its operands are operands of e2.
  lemma ExtractLeavesUnit(op: Op, e1: Expr, e2: Expr)
    requires LiteralFree(e1) && LiteralFree(e2)
    ensures Extract(op, e1, e2).fst == Symbol(Unit(op)) <==> Operands(op, e1) <= Operands(op, e2)
  {
    var x := ExtractEq(op, None, e1, e2);
    LiteralFreePruned(op, e1);
    LiteralFreePruned(op, e2);
    ExtractEqRest(op, None, e1, e2);
    EliminatePairsComplete(op, e1, e2);
    assert Live(op, x.fst) == Operands(op, e1) - Operands(op, e2);
    assert !LiteralFree(Symbol(Unit(op)));
    NothingLeft(Operands(op, e1), Operands(op, e2));
    if x.common.None? {
      ExtractEqNothing(op, None, e1, e2);
      assert Live(op, x.fst) == Operands(op, e1) != multiset{};
    } else {
      PrunedYN(op, x.fst);
    }
  }
}
