// What expr_eq decides: equality up to associativity and commutativity of AND
// and OR.  The canonical form of an expression lists the operands of every
// AND and OR as a multiset.

module Canonical {
  import opened Tristates
  import opened Exprs
  import opened ExprEquality

  datatype Canon =
    | CSymbol(sym: Sym)
    | CEqual(left: Sym, right: Sym)
    | CUnequal(left: Sym, right: Sym)
    | CNot(arg: Canon)
    | CBin(op: Op, operands: multiset<Canon>)

  function Canonical(e: Expr): Canon
    decreases e, 0
  {
    match e
    case Symbol(s) => CSymbol(s)
    case Equal(a, b) => CEqual(a, b)
    case Unequal(a, b) => CUnequal(a, b)
    case Not(a) => CNot(Canonical(a))
    case Bin(op, l, r) => CBin(op, Operands(op, l) + Operands(op, r))
  }

  function Operands(op: Op, e: Expr): (m: multiset<Canon>)
    ensures m != multiset{}
    decreases e, 1
  {
    if IsBin(op, e) then Operands(op, e.l) + Operands(op, e.r) else multiset{Canonical(e)}
  }

  // Operands that have not been replaced by the unit of op.
  function Live(op: Op, e: Expr): multiset<Canon> {
    if IsBin(op, e) then Live(op, e.l) + Live(op, e.r)
    else if e == Symbol(Unit(op)) then multiset{}
    else multiset{Canonical(e)}
  }

  // The operands of e are free of y and n, except where one was replaced.
  predicate Pruned(op: Op, e: Expr) {
    if IsBin(op, e) then Pruned(op, e.l) && Pruned(op, e.r)
    else e == Symbol(Unit(op)) || LiteralFree(e)
  }

  lemma {:induction false} LiteralFreePruned(op: Op, e: Expr)
    requires LiteralFree(e)
    ensures Pruned(op, e) && Live(op, e) == Operands(op, e)
  {
    if IsBin(op, e) {
      LiteralFreePruned(op, e.l);
      LiteralFreePruned(op, e.r);
    }
  }

  lemma {:induction false} LiteralFreeYN(e: Expr)
    requires LiteralFree(e)
    ensures EliminateYN(e) == e
  {
    if e.Bin? {
      LiteralFreeYN(e.l);
      LiteralFreeYN(e.r);
    }
  }

  predicate PrunedYNOk(op: Op, live: multiset<Canon>, r: Expr) {
    if live == multiset{} then r == Symbol(Unit(op))
    else LiteralFree(r) && (r.Symbol? ==> live == multiset{CSymbol(r.sym)})
  }

  // What eliminating y and n leaves of a pruned operand tree.
  lemma {:induction false} PrunedYN(op: Op, e: Expr)
    requires Pruned(op, e)
    ensures PrunedYNOk(op, Live(op, e), EliminateYN(e))
  {
    if IsBin(op, e) {
      PrunedYN(op, e.l);
      PrunedYN(op, e.r);
      CombinePruned(op, Live(op, e.l), Live(op, e.r), EliminateYN(e.l), EliminateYN(e.r));
    } else if e != Symbol(Unit(op)) {
      LiteralFreeYN(e);
    }
  }

  lemma CombinePruned(op: Op, left: multiset<Canon>, right: multiset<Canon>, l: Expr, r: Expr)
    requires PrunedYNOk(op, left, l) && PrunedYNOk(op, right, r)
    ensures PrunedYNOk(op, left + right, CombineYN(op, l, r))
  {
    EmptySum(left, right);
    assert l == Symbol(Unit(op)) || (l != Symbol(Zero(op)) && LiteralFree(l));
    assert r == Symbol(Unit(op)) || (r != Symbol(Zero(op)) && LiteralFree(r));
  }

  lemma EmptySum(a: multiset<Canon>, b: multiset<Canon>)
    ensures a == multiset{} ==> a + b == b
    ensures b == multiset{} ==> a + b == a
    ensures a + b == multiset{} <==> a == multiset{} && b == multiset{}
  {
    if a + b == multiset{} {
      assert forall c: Canon :: (a + b)[c] == a[c] + b[c];
    }
  }

  // a and b are what is left of x and y once their common part is cancelled.
  predicate Cancelled(x: multiset<Canon>, y: multiset<Canon>, a: multiset<Canon>, b: multiset<Canon>) {
    a == x - y && b == y - x
  }

  lemma CancelInTwoSteps(x1: multiset<Canon>, x2: multiset<Canon>, y: multiset<Canon>,
                         a1: multiset<Canon>, a2: multiset<Canon>, b1: multiset<Canon>, b: multiset<Canon>)
    requires Cancelled(x1, y, a1, b1) && Cancelled(x2, b1, a2, b)
    ensures Cancelled(x1 + x2, y, a1 + a2, b)
    ensures Cancelled(y, x1 + x2, b, a1 + a2)
  {
  }

  predicate PairsCancel(op: Op, e1: Expr, e2: Expr, p: (Expr, Expr)) {
    && Pruned(op, p.0) && Pruned(op, p.1)
    && Cancelled(Live(op, e1), Live(op, e2), Live(op, p.0), Live(op, p.1))
  }

  // Cancelling operands one pair at a time computes the two multiset differences.
  lemma {:induction false} EliminatePairsComplete(op: Op, e1: Expr, e2: Expr)
    requires Pruned(op, e1) && Pruned(op, e2)
    ensures PairsCancel(op, e1, e2, EliminatePairs(op, e1, e2))
    decreases Size(e1) + Size(e2), if IsBin(op, e1) || IsBin(op, e2) then 0 else 4
  {
    if IsBin(op, e1) {
      var left := EliminatePairs(op, e1.l, e2);
      EliminatePairsComplete(op, e1.l, e2);
      EliminatePairsComplete(op, e1.r, left.1);
      CancelBelowFirst(op, e1.l, e1.r, e2, left, EliminatePairs(op, e1.r, left.1));
    } else if IsBin(op, e2) {
      var left := EliminatePairs(op, e1, e2.l);
      EliminatePairsComplete(op, e1, e2.l);
      EliminatePairsComplete(op, left.0, e2.r);
      CancelBelowSecond(op, e1, e2.l, e2.r, left, EliminatePairs(op, left.0, e2.r));
    } else if LiteralFree(e1) && LiteralFree(e2) {
      ExprEqDecides(e1, e2);
      CancelLeaves(op, e1, e2);
    } else {
      CancelLeaves(op, e1, e2);
    }
  }

  lemma CancelBelowFirst(op: Op, l: Expr, r: Expr, e2: Expr, left: (Expr, Expr), right: (Expr, Expr))
    requires PairsCancel(op, l, e2, left) && PairsCancel(op, r, left.1, right)
    ensures PairsCancel(op, Bin(op, l, r), e2, (Bin(op, left.0, right.0), right.1))
  {
    CancelInTwoSteps(Live(op, l), Live(op, r), Live(op, e2),
                     Live(op, left.0), Live(op, right.0), Live(op, left.1), Live(op, right.1));
  }

  lemma CancelBelowSecond(op: Op, e1: Expr, l: Expr, r: Expr, left: (Expr, Expr), right: (Expr, Expr))
    requires PairsCancel(op, e1, l, left) && PairsCancel(op, left.0, r, right)
    ensures PairsCancel(op, e1, Bin(op, l, r), (right.0, Bin(op, left.1, right.1)))
  {
    CancelInTwoSteps(Live(op, l), Live(op, r), Live(op, e1),
                     Live(op, left.1), Live(op, right.1), Live(op, left.0), Live(op, right.0));
  }

  lemma CancelLeaves(op: Op, e1: Expr, e2: Expr)
    requires Pruned(op, e1) && Pruned(op, e2) && !IsBin(op, e1) && !IsBin(op, e2)
    requires LiteralFree(e1) && LiteralFree(e2) ==> (ExprEq(e1, e2) <==> Canonical(e1) == Canonical(e2))
    ensures PairsCancel(op, e1, e2, EliminatePairs(op, e1, e2))
  {
    CancelSingles(Canonical(e1), Canonical(e2));
    if e1 == Symbol(Unit(op)) || e2 == Symbol(Unit(op)) {
      CancelUnit(op, e1, e2);
    } else {
      var p := EliminatePairs(op, e1, e2);
      if ExprEq(e1, e2) {
        assert p == (Symbol(Unit(op)), Symbol(Unit(op)));
      } else {
        assert p == (e1, e2);
      }
    }
  }

  lemma CancelUnit(op: Op, e1: Expr, e2: Expr)
    requires Pruned(op, e1) && Pruned(op, e2) && !IsBin(op, e1) && !IsBin(op, e2)
    requires e1 == Symbol(Unit(op)) || e2 == Symbol(Unit(op))
    ensures PairsCancel(op, e1, e2, EliminatePairs(op, e1, e2))
  {
    CancelSingles(Canonical(e1), Canonical(e2));
    assert !LiteralFree(Symbol(Unit(op)));
    assert e1 == e2 || !ExprEq(e1, e2);
    assert EliminatePairs(op, e1, e2) == (e1, e2);
  }

  lemma CancelSingles(a: Canon, b: Canon)
    ensures a == b ==> Cancelled(multiset{a}, multiset{b}, multiset{}, multiset{})
    ensures a != b ==> Cancelled(multiset{a}, multiset{b}, multiset{a}, multiset{b})
    ensures Cancelled(multiset{a}, multiset{}, multiset{a}, multiset{})
    ensures Cancelled(multiset{}, multiset{b}, multiset{}, multiset{b})
    ensures Cancelled(multiset{}, multiset{}, multiset{}, multiset{})
  {
  }

  // Without y and n, expr_eq answers 1 exactly for equal canonical forms.
  lemma {:induction false} ExprEqDecides(e1: Expr, e2: Expr)
    requires LiteralFree(e1) && LiteralFree(e2)
    ensures ExprEq(e1, e2) <==> Canonical(e1) == Canonical(e2)
    decreases Size(e1) + Size(e2), 3
  {
    if SameType(e1, e2) {
      match e1
      case Not(a) => ExprEqDecides(a, e2.arg);
      case Bin(op, _, _) =>
        LiteralFreePruned(op, e1);
        LiteralFreePruned(op, e2);
        EliminatePairsComplete(op, e1, e2);
        BinDecides(op, e1, e2, EliminatePairs(op, e1, e2));
      case _ =>
    }
  }

  lemma BinDecides(op: Op, e1: Expr, e2: Expr, p: (Expr, Expr))
    requires IsBin(op, e1) && IsBin(op, e2) && p == EliminatePairs(op, e1, e2)
    requires Live(op, e1) == Operands(op, e1) && Live(op, e2) == Operands(op, e2)
    requires PairsCancel(op, e1, e2, p)
    ensures ExprEq(e1, e2) <==> Canonical(e1) == Canonical(e2)
  {
    PrunedYN(op, p.0);
    PrunedYN(op, p.1);
    RestsAgree(op, Live(op, e1), Live(op, e2), Live(op, p.0), Live(op, p.1), EliminateYN(p.0), EliminateYN(p.1));
    OnePass(op, e1, e2, p);
  }

  // Two operand trees of one operator need one pass only.
  lemma OnePass(op: Op, e1: Expr, e2: Expr, p: (Expr, Expr))
    requires IsBin(op, e1) && IsBin(op, e2) && p == EliminatePairs(op, e1, e2)
    ensures EliminateEq(e1, e2) == (EliminateYN(p.0), EliminateYN(p.1))
  {
    EliminatePairsShape(op, e1, e2);
    assert FirstPass(e1, e2) == p && SecondPass(p.0, p.1) == p;
  }

  // The two remainders are the same symbol exactly when nothing is left of either.
  lemma RestsAgree(op: Op, x: multiset<Canon>, y: multiset<Canon>, a: multiset<Canon>, b: multiset<Canon>,
                   r1: Expr, r2: Expr)
    requires Cancelled(x, y, a, b) && PrunedYNOk(op, a, r1) && PrunedYNOk(op, b, r2)
    ensures r1.Symbol? && r2.Symbol? && r1.sym == r2.sym <==> x == y
  {
    DifferencesEmpty(x, y);
    assert !LiteralFree(Symbol(Unit(op)));
  }

  lemma DifferencesEmpty(a: multiset<Canon>, b: multiset<Canon>)
    ensures a == b <==> a - b == multiset{} && b - a == multiset{}
    ensures a - b == b - a ==> a == b
  {
    if a - b == b - a {
      forall c: Canon
        ensures a[c] == b[c]
      {
        assert (a - b)[c] == (b - a)[c];
      }
    }
    if a - b == multiset{} && b - a == multiset{} {
      assert a - b == b - a;
    }
  }

  // When is y left of e2? ---------------------------------------------------------

  lemma {:induction false} PairsPruned(op: Op, e1: Expr, e2: Expr)
    requires Pruned(op, e2)
    ensures Pruned(op, EliminatePairs(op, e1, e2).1)
    decreases Size(e1) + Size(e2), if IsBin(op, e1) || IsBin(op, e2) then 0 else 4
  {
    if IsBin(op, e1) {
      PairsPruned(op, e1.l, e2);
      PairsPruned(op, e1.r, EliminatePairs(op, e1.l, e2).1);
    } else if IsBin(op, e2) {
      PairsPruned(op, e1, e2.l);
      PairsPruned(op, EliminatePairs(op, e1, e2.l).0, e2.r);
    }
  }

  predicate TookOne(op: Op, e1: Expr, e2: Expr, p: (Expr, Expr)) {
    && (p == (e1, e2) || (p.0 == Symbol(Unit(op)) && e1 != p.0))
    && |Live(op, p.1)| >= |Live(op, e2)| - 1
  }

  // A single operand takes at most one operand of e2 away.
  lemma {:induction false} TakesOne(op: Op, e1: Expr, e2: Expr)
    requires !IsBin(op, e1) && LiteralFree(e2)
    ensures TookOne(op, e1, e2, EliminatePairs(op, e1, e2))
    decreases Size(e2)
  {
    if IsBin(op, e2) {
      var left := EliminatePairs(op, e1, e2.l);
      TakesOne(op, e1, e2.l);
      TakesOne(op, left.0, e2.r);
      TookOneBelow(op, e1, e2, left, EliminatePairs(op, left.0, e2.r));
    } else {
      assert Symbol(Unit(op)) == e1 ==> !ExprEq(e1, e2);
    }
  }

  lemma TookOneBelow(op: Op, e1: Expr, e2: Expr, left: (Expr, Expr), right: (Expr, Expr))
    requires IsBin(op, e2) && TookOne(op, e1, e2.l, left) && TookOne(op, left.0, e2.r, right)
    ensures TookOne(op, e1, e2, (right.0, Bin(op, left.1, right.1)))
  {
    var u := Bin(op, left.1, right.1);
    assert |Live(op, u)| == |Live(op, left.1)| + |Live(op, right.1)|;
    assert |Live(op, e2)| == |Live(op, e2.l)| + |Live(op, e2.r)|;
  }

  lemma PrunedNotYes(op: Op, e: Expr)
    requires Pruned(op, e) && (op == OrOp || Live(op, e) != multiset{})
    ensures EliminateYN(e) != Symbol(YES)
  {
    PrunedYN(op, e);
    assert !LiteralFree(Symbol(YES));
  }

  // Without y and n, y is left of e2 exactly if e1 is an AND that has all operands of e2
  // among its own: an equal comparison alone, or an equal OR, does not count.
  lemma YesIsLeftIff(e1: Expr, e2: Expr)
    requires LiteralFree(e1) && LiteralFree(e2)
    ensures EliminateEq(e1, e2).1 == Symbol(YES) <==>
      IsBin(AndOp, e1) && Operands(AndOp, e2) <= Operands(AndOp, e1)
  {
    var p := FirstPass(e1, e2);
    if IsBin(AndOp, e1) {
      AndLeavesYes(e1, e2, p);
    } else {
      OtherLeavesNoYes(e1, e2, p);
    }
  }

  lemma AndLeavesYes(e1: Expr, e2: Expr, p: (Expr, Expr))
    requires LiteralFree(e1) && LiteralFree(e2) && IsBin(AndOp, e1) && p == EliminatePairs(AndOp, e1, e2)
    ensures EliminateYN(SecondPass(p.0, p.1).1) == Symbol(YES) <==> Operands(AndOp, e2) <= Operands(AndOp, e1)
  {
    LiteralFreePruned(AndOp, e1);
    LiteralFreePruned(AndOp, e2);
    EliminatePairsComplete(AndOp, e1, e2);
    EliminatePairsShape(AndOp, e1, e2);
    PrunedYN(AndOp, p.1);
    RestIsYes(Operands(AndOp, e2), Operands(AndOp, e1), Live(AndOp, p.1), EliminateYN(p.1));
    if IsBin(OrOp, p.1) {
      OrLeavesNoYes(p.0, p.1);
    } else {
      assert SecondPass(p.0, p.1) == p;
    }
  }

  lemma RestIsYes(a: multiset<Canon>, b: multiset<Canon>, live: multiset<Canon>, r: Expr)
    requires live == a - b && PrunedYNOk(AndOp, live, r)
    ensures r == Symbol(YES) <==> a <= b
  {
    NothingLeft(a, b);
    assert !LiteralFree(Symbol(YES));
  }

  lemma OrLeavesNoYes(a: Expr, b: Expr)
    requires LiteralFree(b) && IsBin(OrOp, b)
    ensures EliminateYN(b) != Symbol(YES) && EliminateYN(SecondPass(a, b).1) != Symbol(YES)
  {
    LiteralFreePruned(OrOp, b);
    PairsPruned(OrOp, a, b);
    PrunedNotYes(OrOp, EliminatePairs(OrOp, a, b).1);
    PrunedNotYes(OrOp, b);
  }

  lemma NothingLeft(a: multiset<Canon>, b: multiset<Canon>)
    ensures a - b == multiset{} <==> a <= b
  {
    if a - b == multiset{} {
      forall c: Canon
        ensures a[c] <= b[c]
      {
        assert (a - b)[c] == 0;
      }
    }
  }

  lemma OtherLeavesNoYes(e1: Expr, e2: Expr, p: (Expr, Expr))
    requires LiteralFree(e1) && LiteralFree(e2) && !IsBin(AndOp, e1) && p == FirstPass(e1, e2)
    ensures EliminateYN(SecondPass(p.0, p.1).1) != Symbol(YES)
  {
    LiteralFreePruned(OrOp, e2);
    if e1.Bin? {
      PairsPruned(OrOp, e1, e2);
      EliminatePairsShape(OrOp, e1, e2);
    }
    if !SameType(p.0, p.1) && p.1.Bin? {
      LiteralFreePruned(p.1.op, p.1);
      PairsPruned(p.1.op, p.0, p.1);
      TakesOne(p.1.op, p.0, p.1);
      TwoOperands(p.1.op, p.1);
      PrunedNotYes(p.1.op, EliminatePairs(p.1.op, p.0, p.1).1);
    } else {
      PrunedNotYes(OrOp, p.1);
    }
  }

  lemma TwoOperands(op: Op, e: Expr)
    requires IsBin(op, e)
    ensures |Operands(op, e)| >= 2
  {
  }

  // Rewriting by commutativity and associativity ------------------------------

  // A derivation that one expression is obtained from another by swapping and
  // regrouping operands of AND and OR, anywhere in the expression.
  datatype Derivation =
    | Reflexive
    | Symmetric(d: Derivation)
    | Transitive(mid: Expr, d1: Derivation, d2: Derivation)
    | Commutative
    | Associative
    | InNot(d: Derivation)
    | InBin(d1: Derivation, d2: Derivation)

  predicate Derives(d: Derivation, a: Expr, b: Expr) {
    match d
    case Reflexive => a == b
    case Symmetric(d1) => Derives(d1, b, a)
    case Transitive(m, d1, d2) => Derives(d1, a, m) && Derives(d2, m, b)
    case Commutative => a.Bin? && b == Bin(a.op, a.r, a.l)
    case Associative => a.Bin? && IsBin(a.op, a.l) && b == Bin(a.op, a.l.l, Bin(a.op, a.l.r, a.r))
    case InNot(d1) => a.Not? && b.Not? && Derives(d1, a.arg, b.arg)
    case InBin(d1, d2) => a.Bin? && IsBin(a.op, b) && Derives(d1, a.l, b.l) && Derives(d2, a.r, b.r)
  }

  ghost predicate Rearranged(a: Expr, b: Expr) {
    exists d :: Derives(d, a, b)
  }

  lemma OperandsOfCanonical(op: Op, e: Expr)
    ensures Operands(op, e) ==
      if Canonical(e).CBin? && Canonical(e).op == op then Canonical(e).operands else multiset{Canonical(e)}
  {
  }

  lemma {:induction false} DerivesCanonical(d: Derivation, a: Expr, b: Expr)
    requires Derives(d, a, b)
    ensures Canonical(a) == Canonical(b)
  {
    match d
    case Symmetric(d1) => DerivesCanonical(d1, b, a);
    case Transitive(m, d1, d2) =>
      DerivesCanonical(d1, a, m);
      DerivesCanonical(d2, m, b);
    case Associative =>
      assert Operands(a.op, a.l) == Operands(a.op, a.l.l) + Operands(a.op, a.l.r);
    case InNot(d1) => DerivesCanonical(d1, a.arg, b.arg);
    case InBin(d1, d2) =>
      DerivesCanonical(d1, a.l, b.l);
      DerivesCanonical(d2, a.r, b.r);
      OperandsOfCanonical(a.op, a.l);
      OperandsOfCanonical(a.op, b.l);
      OperandsOfCanonical(a.op, a.r);
      OperandsOfCanonical(a.op, b.r);
    case _ =>
  }

  // An operand with canonical form c can be brought to the front.
  lemma {:induction false} PullOut(op: Op, e: Expr, c: Canon) returns (x: Expr, rest: Expr, d: Derivation)
    requires IsBin(op, e) && c in Operands(op, e)
    ensures Pulled(op, e, c, x, rest, d)
    decreases e, 0
  {
    if c in Operands(op, e.l) {
      x, rest, d := PullLeft(op, e.l, e.r, c);
    } else {
      x, rest, d := PullLeft(op, e.r, e.l, c);
      d := Transitive(Bin(op, e.r, e.l), Commutative, d);
      assert Operands(op, e) == Operands(op, e.r) + Operands(op, e.l);
    }
  }

  predicate Pulled(op: Op, e: Expr, c: Canon, x: Expr, rest: Expr, d: Derivation) {
    && Canonical(x) == c
    && Derives(d, e, Bin(op, x, rest))
    && Operands(op, e) == Operands(op, rest) + multiset{c}
    && Size(x) + Size(rest) < Size(e)
  }

  lemma {:induction false} PullLeft(op: Op, e: Expr, other: Expr, c: Canon) returns (x: Expr, rest: Expr, d: Derivation)
    requires c in Operands(op, e)
    ensures Pulled(op, Bin(op, e, other), c, x, rest, d)
    decreases e, 1
  {
    if IsBin(op, e) {
      var front, d1;
      x, front, d1 := PullOut(op, e, c);
      rest := Bin(op, front, other);
      d := Transitive(Bin(op, Bin(op, x, front), other), InBin(d1, Reflexive), Associative);
      RegroupDerives(op, e, other, x, front, d1);
      PullRegroup(op, e, other, x, front, c);
    } else {
      x, rest, d := e, other, Reflexive;
    }
  }

  lemma RegroupDerives(op: Op, e: Expr, other: Expr, x: Expr, front: Expr, d: Derivation)
    requires Derives(d, e, Bin(op, x, front))
    ensures Derives(Transitive(Bin(op, Bin(op, x, front), other), InBin(d, Reflexive), Associative),
                    Bin(op, e, other), Bin(op, x, Bin(op, front, other)))
  {
    assert Derives(Reflexive, other, other);
  }

  lemma PullRegroup(op: Op, e: Expr, other: Expr, x: Expr, front: Expr, c: Canon)
    requires Operands(op, e) == Operands(op, front) + multiset{c}
    ensures Operands(op, Bin(op, e, other)) == Operands(op, Bin(op, front, other)) + multiset{c}
  {
    var o := Operands(op, other);
    assert Operands(op, e) + o == Operands(op, front) + o + multiset{c};
  }

  // Equal canonical forms are exactly what swapping and regrouping can reach.
  lemma {:induction false} CanonicalDerives(a: Expr, b: Expr) returns (d: Derivation)
    requires Canonical(a) == Canonical(b)
    ensures Derives(d, a, b)
    decreases Size(a), 1
  {
    match a
    case Not(x) =>
      var d1 := CanonicalDerives(x, b.arg);
      d := InNot(d1);
    case Bin(op, _, _) => d := OperandsDerive(op, a, b);
    case _ => d := Reflexive;
  }

  lemma {:induction false} OperandsDerive(op: Op, a: Expr, b: Expr) returns (d: Derivation)
    requires IsBin(op, a) && IsBin(op, b) && Operands(op, a) == Operands(op, b)
    ensures Derives(d, a, b)
    decreases Size(a), 0
  {
    var c := FirstOperand(op, a);
    var x, restA, dA := PullOut(op, a, c);
    var y, restB, dB := PullOut(op, b, c);
    var front := CanonicalDerives(x, y);
    DropCommon(Operands(op, restA), Operands(op, restB), c);
    SameGrouping(op, restA, restB);
    var rest := CanonicalDerives(restA, restB);
    d := Transitive(Bin(op, x, restA), dA,
                    Transitive(Bin(op, y, restB), InBin(front, rest), Symmetric(dB)));
    ChainDerives(op, a, b, x, restA, y, restB, dA, dB, front, rest);
  }

  lemma ChainDerives(op: Op, a: Expr, b: Expr, x: Expr, restA: Expr, y: Expr, restB: Expr,
                     dA: Derivation, dB: Derivation, front: Derivation, rest: Derivation)
    requires Derives(dA, a, Bin(op, x, restA)) && Derives(dB, b, Bin(op, y, restB))
    requires Derives(front, x, y) && Derives(rest, restA, restB)
    ensures Derives(Transitive(Bin(op, x, restA), dA,
                               Transitive(Bin(op, y, restB), InBin(front, rest), Symmetric(dB))), a, b)
  {
    assert Derives(InBin(front, rest), Bin(op, x, restA), Bin(op, y, restB));
    assert Derives(Symmetric(dB), Bin(op, y, restB), b);
  }

  lemma DropCommon(a: multiset<Canon>, b: multiset<Canon>, c: Canon)
    requires a + multiset{c} == b + multiset{c}
    ensures a == b
  {
    forall x: Canon
      ensures a[x] == b[x]
    {
      assert (a + multiset{c})[x] == (b + multiset{c})[x];
    }
  }

  lemma {:induction false} FirstOperand(op: Op, e: Expr) returns (c: Canon)
    ensures c in Operands(op, e)
  {
    if IsBin(op, e) {
      c := FirstOperand(op, e.l);
    } else {
      c := Canonical(e);
    }
  }

  lemma {:induction false} OperandCount(op: Op, e: Expr)
    ensures IsBin(op, e) ==> |Operands(op, e)| >= 2
    ensures !IsBin(op, e) ==> |Operands(op, e)| == 1
  {
    if IsBin(op, e) {
      OperandCount(op, e.l);
      OperandCount(op, e.r);
    }
  }

  lemma SameGrouping(op: Op, a: Expr, b: Expr)
    requires Operands(op, a) == Operands(op, b)
    ensures Canonical(a) == Canonical(b)
  {
    OperandCount(op, a);
    OperandCount(op, b);
    if !IsBin(op, a) {
      assert Canonical(a) in Operands(op, b);
    }
  }

  // expr_eq on expressions without y and n answers 1 exactly when one can be
  // rearranged into the other.
  lemma ExprEqIffRearranged(e1: Expr, e2: Expr)
    requires LiteralFree(e1) && LiteralFree(e2)
    ensures ExprEq(e1, e2) <==> Rearranged(e1, e2)
  {
    ExprEqDecides(e1, e2);
    if ExprEq(e1, e2) {
      var d := CanonicalDerives(e1, e2);
    }
    if Rearranged(e1, e2) {
      var d :| Derives(d, e1, e2);
      DerivesCanonical(d, e1, e2);
    }
  }
}
