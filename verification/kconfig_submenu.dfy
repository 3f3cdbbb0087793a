// The expressions menu_finalize works on: dependencies handed down to the entries
// of a menu, and the test that lets an entry into the submenu of another.

module MenuDependencies {
  import opened Options
  import opened Tristates
  import opened Exprs
  import opened Canonical
  import opened Comparison
  import opened Duplicates
  import opened ExprEquality
  import opened Slots
  import opened Transformation
  import Joining

  // Whenever a is not n, b is not n.
  ghost predicate OnlyWith(a: ExprOpt, b: ExprOpt) {
    forall v: Valuation | Coherent(v) :: EvalOpt(a, v) != No ==> EvalOpt(b, v) != No
  }

  ghost predicate RefinedByOpt(a: ExprOpt, b: ExprOpt) {
    forall v: Valuation | Coherent(v) :: Refines(EvalOpt(a, v), EvalOpt(b, v))
  }

  predicate NnfOpt(e: ExprOpt) {
    e.Some? ==> Nnf(e.value)
  }

  ghost predicate DuplicateFreeOpt(e: ExprOpt) {
    e.Some? ==> DuplicateFree(e.value)
  }

  method EliminateDupsOpt(e: ExprOpt) returns (r: ExprOpt)
    ensures RefinedByOpt(e, r) && DuplicateFreeOpt(r)
    ensures NnfOpt(e) ==> NnfOpt(r)
    ensures r.Some? <==> e.Some?
  {
    if e.None? {
      return None;
    }
    var x := EliminateDups(e.value);
    return Some(x);
  }

  // expr_eliminate_dups(expr_alloc_and(expr_copy(outer), expr_transform(inner)))
  method Conjoin(outer: ExprOpt, inner: ExprOpt) returns (r: ExprOpt)
    ensures RefinedByOpt(AllocAnd(outer, inner), r) && DuplicateFreeOpt(r)
    ensures OnlyWith(r, outer) && OnlyWith(r, inner)
    ensures NnfOpt(outer) ==> NnfOpt(r)
  {
    var t := TransformOpt(inner);
    if inner.Some? {
      TransformCorrect(inner.value);
    }
    r := EliminateDupsOpt(AllocAnd(outer, t));
    forall v: Valuation | Coherent(v)
      ensures Refines(EvalOpt(AllocAnd(outer, inner), v), EvalOpt(r, v))
      ensures EvalOpt(r, v) != No ==> EvalOpt(outer, v) != No && EvalOpt(inner, v) != No
    {
      if inner.Some? {
        TransformValue(inner.value, v);
      }
      AllocValue(outer, inner, v);
      AllocValue(outer, t, v);
      assert Refines(EvalOpt(AllocAnd(outer, t), v), EvalOpt(r, v));
    }
  }

  // The new condition of a prompt: the one of its entry and its own, without
  // comparisons with n if the symbol is not tristate.
  method PromptCondition(base: ExprOpt, own: ExprOpt, sym: Option<Sym>) returns (r: ExprOpt)
    ensures NnfOpt(base) ==> NnfOpt(r) && IsPromptCondition(base, own, r)
    ensures HasPromptForm(base, own, sym, r)
  {
    var mid := Conjoin(base, own);
    r := mid;
    if sym.Some? && sym.value.Type() != TristateType && mid.Some? {
      r := Some(TransBool(mid.value));
      TransBoolComplete(mid.value);
    }
    if NnfOpt(base) && mid.Some? {
      TransBoolNnf(mid.value);
      forall v: Valuation | Coherent(v)
        ensures EvalOpt(r, v) == No <==> EvalOpt(mid, v) == No
      {
        NnfNegatesNoReplaced(mid.value);
        TransBoolKeepsNotNo(mid.value, v);
      }
    }
    if NnfOpt(base) {
      SameNoPromptCondition(base, own, mid, r);
    }
  }

  // For a symbol that is not tristate no comparison with n is left of a symbol that is; for
  // others the condition is that of both, free of duplicates.
  ghost predicate HasPromptForm(base: ExprOpt, own: ExprOpt, sym: Option<Sym>, r: ExprOpt) {
    if sym.Some? && sym.value.Type() != TristateType then r.Some? ==> Replaced(r.value)
    else RefinedByOpt(AllocAnd(base, own), r) && DuplicateFreeOpt(r)
  }

  // The prompt is n wherever base or own is n, and is not n where both are y.
  ghost predicate IsPromptCondition(base: ExprOpt, own: ExprOpt, r: ExprOpt) {
    && OnlyWith(r, base) && OnlyWith(r, own)
    && forall v: Valuation | Coherent(v) :: EvalOpt(AllocAnd(base, own), v) == Yes ==> EvalOpt(r, v) != No
  }

  lemma SameNoPromptCondition(base: ExprOpt, own: ExprOpt, mid: ExprOpt, r: ExprOpt)
    requires RefinedByOpt(AllocAnd(base, own), mid) && OnlyWith(mid, base) && OnlyWith(mid, own)
    requires forall v: Valuation | Coherent(v) :: EvalOpt(r, v) == No <==> EvalOpt(mid, v) == No
    ensures IsPromptCondition(base, own, r)
  {
    forall v: Valuation | Coherent(v)
      ensures EvalOpt(r, v) != No ==> EvalOpt(base, v) != No && EvalOpt(own, v) != No
      ensures EvalOpt(AllocAnd(base, own), v) == Yes ==> EvalOpt(r, v) != No
    {
      assert Refines(EvalOpt(AllocAnd(base, own), v), EvalOpt(mid, v));
      assert EvalOpt(r, v) == No <==> EvalOpt(mid, v) == No;
    }
  }

  lemma {:induction false} TransBoolNnf(e: Expr)
    requires Nnf(e)
    ensures Nnf(TransBool(e))
  {
    if e.Bin? {
      TransBoolNnf(e.l);
      TransBoolNnf(e.r);
    }
  }

  // For an expression that is n, the comparison with n that expr_trans_compare
  // builds is never missed, whatever is negated.
  lemma {:induction false} TransCompareNo(e: Expr, v: Valuation)
    requires Coherent(v) && Nnf(e) && OverTristates(e)
    requires Eval(e, v) == No
    ensures Eval(TransCompare(e, false, NO), v) == Yes
    ensures Eval(TransCompare(e, true, NO), v) == No
  {
    assert v.tri(NO) == No;
    match e
    case Symbol(s) => ComparisonOfSymbol(s, NO, v);
    case Not(a) => ComparisonOfSymbol(a.sym, NO, v);
    case Bin(op, l, r) =>
      TransCompareTwoValued(l, false, NO, v);
      TransCompareTwoValued(r, false, NO, v);
      if op == OrOp || Eval(l, v) == No {
        TransCompareNo(l, v);
      }
      if op == OrOp || Eval(r, v) == No {
        TransCompareNo(r, v);
      }
    case _ =>
  }

  // Its form before duplicates are eliminated.
  function ComparedForm(e: ExprOpt): Expr {
    Transform(TransCompareOpt(e, true, NO))
  }

  lemma ComparedInForm(e: ExprOpt)
    ensures ComparisonForm(ComparedForm(e))
  {
    if e.Some? {
      TransCompareOver(e.value, true);
    }
    TransformForm(TransCompareOpt(e, true, NO));
  }

  lemma {:induction false} TransCompareOver(e: Expr, unequal: bool)
    ensures OverComparisons(TransCompare(e, unequal, NO))
  {
    match e
    case Not(a) => TransCompareOver(a, !unequal);
    case Bin(_, l, r) =>
      TransCompareOver(l, false);
      TransCompareOver(r, false);
    case _ =>
  }

  // A result of NotNo without y and n is its own comparison with n.
  predicate TwoValued(e: Expr) {
    ComparisonForm(e) && LiteralFree(e)
  }

  lemma {:induction false} TwoValuedFixed(e: Expr)
    requires TwoValued(e)
    ensures Transform(TransCompare(e, true, NO)) == e
    ensures Transform(Not(Transform(TransCompare(e, false, NO)))) == e
  {
    match e
    case Symbol(s) => NegatedBoolean(s);
    case Not(a) => NegatedBoolean(a.sym);
    case Bin(op, l, r) =>
      TwoValuedFixed(l);
      TwoValuedFixed(r);
      TwoValuedNode(e, TransCompare(l, false, NO), TransCompare(r, false, NO));
    case _ => NegatedNormal(e);
  }

  lemma NegatedBoolean(s: Sym)
    requires s.Type() == BooleanType
    ensures Transform(Equal(s, NO)) == Not(Symbol(s)) && Transform(Unequal(s, NO)) == Symbol(s)
    ensures Transform(Not(Symbol(s))) == Not(Symbol(s)) && Transform(Not(Not(Symbol(s)))) == Symbol(s)
  {
  }

  lemma NegatedNormal(e: Expr)
    requires (e.Equal? || e.Unequal?) && Normal(e)
    ensures Transform(e) == e && Transform(Not(Transform(Not(e)))) == e
  {
  }

  lemma TwoValuedNode(e: Expr, l: Expr, r: Expr)
    requires e.Bin? && l == TransCompare(e.l, false, NO) && r == TransCompare(e.r, false, NO)
    requires Transform(Not(Transform(l))) == e.l && Transform(Not(Transform(r))) == e.r
    ensures Transform(TransCompare(e, true, NO)) == e
    ensures Transform(Not(Transform(TransCompare(e, false, NO)))) == e
  {
    var c, l', r' := Bin(Dual(e.op), l, r), Transform(l), Transform(r);
    TransformCorrect(l);
    TransformCorrect(r);
    NegatedPair(e, Dual(e.op), l, r, l', r', c);
    NegatedPair(e, Dual(e.op), l', r', l', r', Bin(Dual(e.op), l', r'));
    TransCompareBin(e, l, r, c);
  }

  lemma TransCompareBin(e: Expr, l: Expr, r: Expr, c: Expr)
    requires e.Bin? && l == TransCompare(e.l, false, NO) && r == TransCompare(e.r, false, NO)
    requires c == Bin(Dual(e.op), l, r)
    ensures TransCompare(e, false, NO) == c && TransCompare(e, true, NO) == Not(c)
  {
  }

  lemma NegatedPair(e: Expr, dual: Op, l: Expr, r: Expr, l': Expr, r': Expr, c: Expr)
    requires e.Bin? && e.op == Dual(dual) && c == Bin(dual, l, r) && Transform(l) == l' && Transform(r) == r'
    requires Transform(Not(l')) == e.l && Transform(Not(r')) == e.r
    ensures Transform(c) == Bin(dual, l', r') && Transform(Not(c)) == e
  {
    TransformNot(c, dual, l', r');
    TransformBin(e.op, Not(l'), Not(r'));
  }

  lemma TransformBin(op: Op, l: Expr, r: Expr)
    ensures Transform(Bin(op, l, r)) == Bin(op, Transform(l), Transform(r))
  {
  }

  lemma TransformNot(c: Expr, op: Op, l: Expr, r: Expr)
    requires Transform(c) == Bin(op, l, r)
    ensures Transform(Not(c)) == Transform(Bin(Dual(op), Not(l), Not(r)))
  {
  }

  // De Morgan below expr_transform
  lemma TransformNotBin(e: Expr, op: Op, l: Expr, r: Expr)
    requires e == Bin(op, l, r)
    ensures Transform(e) == Bin(op, Transform(l), Transform(r))
    ensures Transform(Not(e)) == Bin(Dual(op), Transform(Not(Transform(l))), Transform(Not(Transform(r))))
  {
  }

  // r has the value of the rewritten comparison of e with n.
  ghost predicate MeansNotNo(r: Expr, e: ExprOpt) {
    forall v: Valuation | Coherent(v) :: Eval(r, v) == Eval(TransCompareOpt(e, true, NO), v)
  }

  // r is the comparison of e with n, free of duplicates.
  ghost predicate Compares(r: Expr, e: ExprOpt) {
    && MeansNotNo(r, e) && DuplicateFree(r) && ComparisonForm(r)
    && (DuplicateFree(ComparedForm(e)) ==> r == ComparedForm(e))
  }

  // expr_eliminate_dups(expr_transform(expr_trans_compare(e, E_UNEQUAL, &symbol_no)))
  method NotNo(e: ExprOpt) returns (r: Expr)
    ensures Compares(r, e)
  {
    var c := TransCompareOpt(e, true, NO);
    ComparedInForm(e);
    r := EliminateDups(Transform(c));
    forall v: Valuation | Coherent(v)
      ensures Eval(r, v) == Eval(c, v)
    {
      TransformValue(c, v);
      assert Refines(Eval(Transform(c), v), Eval(r, v));
      assert v.tri(NO) == No;
      if e.Some? {
        TransCompareTwoValued(e.value, true, NO, v);
      }
    }
  }

  // What a condition must be for the test below to mean what it says: boolean and
  // tristate symbols, negations only of symbols.
  predicate Regular(e: ExprOpt) {
    e.Some? ==> Nnf(e.value) && OverTristates(e.value)
  }

  // e is not n when every symbol that is not n is read as y: all that the comparison
  // with n sees of m.
  predicate SeenNotNo(e: ExprOpt, v: Valuation) {
    EvalOpt(e, Compared(v, NO)) != No
  }

  lemma SeenByNotNo(e: ExprOpt, v: Valuation)
    requires Coherent(v)
    ensures Eval(TransCompareOpt(e, true, NO), v) == Bool3(SeenNotNo(e, v))
  {
    assert v.tri(NO) == No;
    if e.Some? {
      TransCompareReads(e.value, true, NO, v);
    }
  }

  // Of a regular condition the comparison never sees too much ...
  lemma SeenIsNotNo(c: ExprOpt, v: Valuation)
    requires Coherent(v) && Regular(c)
    requires SeenNotNo(c, v)
    ensures EvalOpt(c, v) != No
  {
    SeenByNotNo(c, v);
    if c.Some? && Eval(c.value, v) == No {
      TransCompareNo(c.value, v);
    }
  }

  // ... and sees all of it where no negated symbol is m.
  lemma NotNoIsSeen(d: Expr, v: Valuation)
    requires Coherent(v) && OverTristates(d) && NoNegatedMod(d, v)
    requires Eval(d, v) != No
    ensures SeenNotNo(Some(d), v)
  {
    assert v.tri(NO) == No;
    SeenByNotNo(Some(d), v);
    TransCompareExact(d, true, NO, v);
  }

  // An entry with the condition d belongs below an entry with the symbol s and the
  // prompt condition c: d is n whenever s is n, or wherever d is seen not to be n, so is
  // c, and c is not n.
  ghost predicate Subordinate(d: Expr, s: Sym, c: ExprOpt) {
    if DependsSymbol(d, s) then
      IsTristateSym(s) ==> forall v: Valuation | Coherent(v) :: Eval(d, v) != No ==> v.tri(s) != No
    else
      SeenOnlyWith(d, c)
  }

  ghost predicate SeenOnlyWith(d: Expr, c: ExprOpt) {
    forall v: Valuation | Coherent(v) && SeenNotNo(Some(d), v) ::
      SeenNotNo(c, v) && (Regular(c) ==> EvalOpt(c, v) != No)
  }

  predicate IsTristateSym(s: Sym) {
    s.Type() == BooleanType || s.Type() == TristateType
  }

  // In terms of the values: below a bool or tristate symbol d is n whenever s is n, or it
  // is n whenever c is, as long as no negated symbol of d is m.
  lemma SubordinateValue(d: Expr, s: Sym, c: ExprOpt, v: Valuation)
    requires Subordinate(d, s, c) && Coherent(v) && Eval(d, v) != No
    ensures DependsSymbol(d, s) && IsTristateSym(s) ==> v.tri(s) != No
    ensures !DependsSymbol(d, s) && OverTristates(d) && Regular(c) && NoNegatedMod(d, v) ==> EvalOpt(c, v) != No
  {
    if !DependsSymbol(d, s) && OverTristates(d) && NoNegatedMod(d, v) {
      NotNoIsSeen(d, v);
    }
  }

  // What the second test of the sibling loop rests on.
  lemma EliminatedSeen(d: Expr, c: ExprOpt, x: Expr, base: Expr)
    requires MeansNotNo(x, Some(d)) && MeansNotNo(base, c)
    requires EliminateEq(x, base).1 == Symbol(YES)
    ensures SeenOnlyWith(d, c)
  {
    forall v: Valuation | Coherent(v) && SeenNotNo(Some(d), v)
      ensures SeenNotNo(c, v) && (Regular(c) ==> EvalOpt(c, v) != No)
    {
      EliminateEqImplies(x, base, v);
      SeenByNotNo(Some(d), v);
      SeenByNotNo(c, v);
      if Regular(c) {
        SeenIsNotNo(c, v);
      }
    }
  }

  // The second test for an entry with the condition d, compared as x, below the prompt
  // condition c, compared as base.  It says yes exactly if expr_eliminate_eq leaves y of base;
  // without y and n that is if x is an AND that has all operands of base.
  ghost predicate TestSays(x: Expr, base: Expr, yes: bool) {
    && (yes <==> EliminateEq(x, base).1 == Symbol(YES))
    && (LiteralFree(x) && LiteralFree(base) ==>
          (yes <==> IsBin(AndOp, x) && Operands(AndOp, base) <= Operands(AndOp, x)))
  }

  ghost predicate SecondTest(d: Expr, c: ExprOpt, yes: bool) {
    exists x: Expr, base: Expr :: Compares(x, Some(d)) && Compares(base, c) && TestSays(x, base, yes)
  }

  // An entry with the condition d goes below one with the symbol s and the prompt
  // condition c ...
  ghost predicate Admitted(d: ExprOpt, s: Sym, c: ExprOpt) {
    && d.Some? && ContainsSymbol(d.value, s) && Subordinate(d.value, s, c)
    && (!DependsSymbol(d.value, s) ==> SecondTest(d.value, c, true))
  }

  // ... or stays behind it.
  ghost predicate Refused(d: ExprOpt, s: Sym, c: ExprOpt) {
    d.Some? ==>
      && !DependsSymbol(d.value, s)
      && (ContainsSymbol(d.value, s) ==> SecondTest(d.value, c, false))
  }

  // Neither comparison has duplicates to eliminate.
  ghost predicate Decided(d: ExprOpt, c: ExprOpt) {
    DuplicateFree(ComparedForm(d)) && DuplicateFree(ComparedForm(c))
  }

  // Then there are no two ways to decide.
  lemma DecidedOneWay(d: ExprOpt, s: Sym, c: ExprOpt)
    requires Decided(d, c)
    ensures !(Admitted(d, s, c) && Refused(d, s, c))
  {
  }

  // The second test is decided by the operands.
  lemma DecidedByOperands(d: Expr, c: ExprOpt, yes: bool)
    requires Decided(Some(d), c) && SecondTest(d, c, yes)
    requires LiteralFree(ComparedForm(Some(d))) && LiteralFree(ComparedForm(c))
    ensures var x, base := ComparedForm(Some(d)), ComparedForm(c);
      yes <==> IsBin(AndOp, x) && Operands(AndOp, base) <= Operands(AndOp, x)
  {
  }

  // The test in the sibling loop of menu_finalize; base is NotNo of the condition c.
  method BelongsBelow(d: ExprOpt, s: Sym, base: Expr, ghost c: ExprOpt) returns (ok: bool)
    requires MeansNotNo(base, c)
    ensures ok ==> d.Some? && ContainsSymbol(d.value, s) && Subordinate(d.value, s, c)
    ensures d.Some? && DependsSymbol(d.value, s) ==> ok
    ensures d.Some? && ContainsSymbol(d.value, s) && !DependsSymbol(d.value, s) && Compares(base, c) ==>
      SecondTest(d.value, c, ok)
    ensures d.Some? && ContainsSymbol(d.value, s) && !DependsSymbol(d.value, s) && LiteralFree(base) ==>
      var x := ComparedForm(d);
      DuplicateFree(x) && LiteralFree(x) ==>
        (ok <==> IsBin(AndOp, x) && Operands(AndOp, base) <= Operands(AndOp, x))
  {
    if d.None? || !ContainsSymbol(d.value, s) {
      if d.Some? && DependsSymbol(d.value, s) {
        DependsContains(d.value, s);
      }
      return false;
    }
    if DependsSymbol(d.value, s) {
      forall v: Valuation | Coherent(v) && IsTristateSym(s) && Eval(d.value, v) != No
        ensures v.tri(s) != No
      {
        if v.tri(s) == No {
          DependsSymbolSound(d.value, s, v);
        }
      }
      return true;
    }
    var x := NotNo(d);
    ok := EliminateEq(x, base).1 == Symbol(YES);
    if LiteralFree(x) && LiteralFree(base) {
      YesIsLeftIff(x, base);
    }
    assert TestSays(x, base, ok);
    if ok {
      EliminatedSeen(d.value, c, x, base);
    }
  }

  // An operand that is n when s is n: s itself or a comparison that says so.
  predicate Marks(e: Expr, s: Sym) {
    e in [Symbol(s), Equal(s, YES), Equal(s, MOD), Unequal(s, NO)]
  }

  // A dependency on s is an operand of the whole AND that marks s.
  lemma {:induction false} DependsSymbolIff(e: Expr, s: Sym)
    ensures DependsSymbol(e, s) <==> exists p: Path :: IsOperand(AndOp, e, p) && Marks(At(e, p), s)
  {
    if IsBin(AndOp, e) {
      DependsSymbolIff(e.l, s);
      DependsSymbolIff(e.r, s);
      if DependsSymbol(e, s) {
        var right := !DependsSymbol(e.l, s);
        var p: Path :| IsOperand(AndOp, Child(e, right), p) && Marks(At(Child(e, right), p), s);
        assert ([right] + p)[1..] == p;
        assert IsOperand(AndOp, e, [right] + p) && Marks(At(e, [right] + p), s);
      }
      if p: Path :| IsOperand(AndOp, e, p) && Marks(At(e, p), s) {
        assert p != [] && IsOperand(AndOp, Child(e, p[0]), p[1..]);
      }
    } else {
      assert DependsSymbol(e, s) <==> Marks(e, s);
      assert IsOperand(AndOp, e, []) && At(e, []) == e;
    }
  }

  lemma {:induction false} DependsContains(e: Expr, s: Sym)
    requires DependsSymbol(e, s)
    ensures ContainsSymbol(e, s)
  {
    if e.Bin? {
      if DependsSymbol(e.l, s) {
        DependsContains(e.l, s);
      } else {
        DependsContains(e.r, s);
      }
    }
  }

  // When is the second test right? -----------------------------------------------

  // The test, which compares d in the form x, never admits d below a prompt condition
  // that is n while d is not.
  ghost predicate NeverMisplaced(d: Expr, x: Expr) {
    forall c: ExprOpt, base: Expr |
      Regular(c) && MeansNotNo(base, c) && LiteralFree(base) && EliminateEq(x, base).1 == Symbol(YES) ::
      OnlyWith(Some(d), c)
  }

  // d is not n only where the comparison with n sees that.
  ghost predicate AlwaysSeen(d: Expr) {
    forall v: Valuation | Coherent(v) :: Eval(d, v) != No ==> SeenNotNo(Some(d), v)
  }

  // The test is right about d exactly if its form x is not an AND, so that nothing is
  // admitted, or d never owes being m to the negation of a symbol that is m.
  lemma NeverMisplacedIff(d: Expr, x: Expr)
    requires MeansNotNo(x, Some(d)) && TwoValued(x)
    ensures NeverMisplaced(d, x) <==> !IsBin(AndOp, x) || AlwaysSeen(d)
  {
    TwoValuedLiteralFree(x);
    forall c: ExprOpt, base: Expr |
      Regular(c) && MeansNotNo(base, c) && LiteralFree(base) && EliminateEq(x, base).1 == Symbol(YES)
      ensures IsBin(AndOp, x) && SeenOnlyWith(d, c)
    {
      YesIsLeftIff(x, base);
      EliminatedSeen(d, c, x, base);
    }
    if IsBin(AndOp, x) && NeverMisplaced(d, x) {
      AdmittedByItself(x);
      assert OnlyWith(Some(d), Some(x));
      forall v: Valuation | Coherent(v) && Eval(d, v) != No
        ensures SeenNotNo(Some(d), v)
      {
        assert EvalOpt(Some(x), v) != No;
        SeenByNotNo(Some(d), v);
      }
    }
  }

  lemma {:induction false} TwoValuedLiteralFree(e: Expr)
    requires TwoValued(e)
    ensures LiteralFree(e) && Regular(Some(e))
  {
    if e.Bin? {
      TwoValuedLiteralFree(e.l);
      TwoValuedLiteralFree(e.r);
    }
  }

  // As a prompt condition x is its own comparison with n and admits every entry that is
  // compared in the same form.
  lemma AdmittedByItself(x: Expr)
    requires TwoValued(x) && IsBin(AndOp, x)
    ensures Regular(Some(x)) && LiteralFree(x) && ComparedForm(Some(x)) == x && MeansNotNo(x, Some(x))
    ensures EliminateEq(x, x).1 == Symbol(YES)
  {
    TwoValuedLiteralFree(x);
    YesIsLeftIff(x, x);
    TwoValuedFixed(x);
    forall v: Valuation | Coherent(v)
      ensures Eval(x, v) == Eval(TransCompareOpt(Some(x), true, NO), v)
    {
      TransformValue(TransCompare(x, true, NO), v);
    }
  }

  // Below a prompt S with the condition c, A = n, an entry with the condition d,
  // !A && (S || T): NotNo leaves both comparisons in the form compared here, the test admits
  // the entry, but with A = m and S = y it is m and c is n.
  lemma MisplacedByNegatedMod(a: Sym, s: Sym, t: Sym, c: Expr, d: Expr, v: Valuation)
    requires a == Config("A", TristateType) && s == Config("S", TristateType) && t == Config("T", TristateType)
    requires c == Equal(a, NO) && d == Bin(AndOp, Not(Symbol(a)), Bin(OrOp, Symbol(s), Symbol(t)))
    requires Coherent(v) && v.tri(a) == Mod && v.tri(s) == Yes
    ensures ContainsSymbol(d, s) && !DependsSymbol(d, s)
    ensures DuplicateFree(ComparedForm(Some(d))) && DuplicateFree(ComparedForm(Some(c)))
    ensures EliminateEq(ComparedForm(Some(d)), ComparedForm(Some(c))).1 == Symbol(YES)
    ensures Eval(d, v) == Mod && Eval(c, v) == No
  {
    assert a.name[0] != s.name[0] && a.name[0] != t.name[0] && s.name[0] != t.name[0];
    MisplacedAdmitted(a, s, t, c, d);
    MisplacedValues(a, s, t, c, d, v);
  }

  lemma MisplacedValues(a: Sym, s: Sym, t: Sym, c: Expr, d: Expr, v: Valuation)
    requires a.Type() == TristateType && Coherent(v) && v.tri(a) == Mod && v.tri(s) == Yes
    requires c == Equal(a, NO) && d == Bin(AndOp, Not(Symbol(a)), Bin(OrOp, Symbol(s), Symbol(t)))
    ensures Eval(d, v) == Mod && Eval(c, v) == No
  {
    assert v.str(a) == Letter(v.tri(a)) && v.str(NO) == Letter(v.tri(NO));
    LetterInjective(Mod, No);
    assert Eval(d.r, v) == Yes && Eval(d.l, v) == Mod;
  }

  lemma MisplacedAdmitted(a: Sym, s: Sym, t: Sym, c: Expr, d: Expr)
    requires a.Type() == s.Type() == t.Type() == TristateType && a != s && a != t && s != t
    requires c == Equal(a, NO) && d == Bin(AndOp, Not(Symbol(a)), Bin(OrOp, Symbol(s), Symbol(t)))
    ensures ContainsSymbol(d, s) && !DependsSymbol(d, s)
    ensures DuplicateFree(ComparedForm(Some(d))) && DuplicateFree(ComparedForm(Some(c)))
    ensures EliminateEq(ComparedForm(Some(d)), ComparedForm(Some(c))).1 == Symbol(YES)
  {
    var rest := Bin(OrOp, Unequal(s, NO), Unequal(t, NO));
    var x := Bin(AndOp, c, rest);
    MisplacedComparison(a, s, t, d, x);
    NegatedComparison(a);
    TwoValuedFixed(c);
    YesIsLeftIff(x, c);
    assert Operands(AndOp, c) == multiset{Canonical.Canonical(c)};
    assert ContainsSymbol(d.r, s);
    NothingToJoin(c);
    NoDuplicates(a, s, t, c, rest);
  }

  lemma NoDuplicates(a: Sym, s: Sym, t: Sym, c: Expr, rest: Expr)
    requires a.Type() == s.Type() == t.Type() == TristateType && a != s && a != t && s != t
    requires c == Equal(a, NO) && rest == Bin(OrOp, Unequal(s, NO), Unequal(t, NO))
    ensures DuplicateFree(Bin(AndOp, c, rest))
  {
    NoDuplicatesInside(s, t, rest);
    NothingToJoin(c);
    OtherOperands(c, rest, Bin(AndOp, c, rest), Canonical.CEqual(s, NO));
    NotContradicted(s, t, rest, c);
    NotContradicted(s, t, rest, Bin(AndOp, c, rest));
    NotJoined(c, rest);
    DuplicateFreePair(AndOp, c, rest);
  }

  lemma OtherOperands(l: Expr, r: Expr, e: Expr, o: Canonical.Canon)
    requires !IsBin(AndOp, l) && !IsBin(AndOp, r) && e == Bin(AndOp, l, r)
    requires Canonical.Canonical(l) != o && Canonical.Canonical(r) != o
    ensures o !in Operands(AndOp, l) && o !in Operands(AndOp, e)
  {
    assert Operands(AndOp, l) == multiset{Canonical.Canonical(l)};
    assert Operands(AndOp, e) == multiset{Canonical.Canonical(l), Canonical.Canonical(r)};
  }

  lemma NotJoined(c: Expr, rest: Expr)
    requires c.Equal? && rest.Bin?
    ensures Joining.Join(AndOp, c, rest).None? && Joining.Join(AndOp, rest, c).None?
  {
    assert !ExprEq(c, rest) && !ExprEq(rest, c);
  }

  lemma NoDuplicatesInside(s: Sym, t: Sym, rest: Expr)
    requires s.Type() == t.Type() == TristateType && s != t
    requires rest == Bin(OrOp, Unequal(s, NO), Unequal(t, NO))
    ensures DuplicateFree(rest)
  {
    NothingToJoin(rest.l);
    NothingToJoin(rest.r);
    DuplicateFreePair(OrOp, rest.l, rest.r);
  }

  lemma NotContradicted(s: Sym, t: Sym, rest: Expr, e: Expr)
    requires s.Type() == t.Type() == TristateType && rest == Bin(OrOp, Unequal(s, NO), Unequal(t, NO))
    requires LiteralFree(e) && Canonical.CEqual(s, NO) !in Operands(AndOp, e)
    ensures !Contradicts(AndOp, rest, e)
  {
    var negated := Bin(AndOp, Equal(s, NO), Equal(t, NO));
    NegatedComparison(s);
    NegatedComparison(t);
    TransformNotBin(rest, OrOp, rest.l, rest.r);
    assert Canonical.CEqual(s, NO) in Operands(AndOp, negated.l);
    assert Canonical.CEqual(s, NO) in Operands(AndOp, negated);
    ContradictionFound(AndOp, rest, e);
  }

  lemma MisplacedComparison(a: Sym, s: Sym, t: Sym, d: Expr, x: Expr)
    requires a.Type() == s.Type() == t.Type() == TristateType
    requires d == Bin(AndOp, Not(Symbol(a)), Bin(OrOp, Symbol(s), Symbol(t)))
    requires x == Bin(AndOp, Equal(a, NO), Bin(OrOp, Unequal(s, NO), Unequal(t, NO)))
    ensures ComparedForm(Some(d)) == x && LiteralFree(x)
  {
    var or := Bin(AndOp, Equal(s, NO), Equal(t, NO));
    var all := Bin(OrOp, Unequal(a, NO), or);
    assert TransCompare(d.l, false, NO) == Unequal(a, NO);
    assert TransCompare(d.r, false, NO) == or;
    assert TransCompare(d, true, NO) == Not(all);
    NegatedComparison(a);
    NegatedComparison(s);
    NegatedComparison(t);
    TransformNotBin(or, AndOp, Equal(s, NO), Equal(t, NO));
    TransformNotBin(all, OrOp, Unequal(a, NO), or);
  }

  lemma NegatedComparison(a: Sym)
    requires a.Type() == TristateType
    ensures Transform(Equal(a, NO)) == Equal(a, NO) && Transform(Unequal(a, NO)) == Unequal(a, NO)
    ensures Transform(Not(Equal(a, NO))) == Unequal(a, NO)
    ensures Transform(Not(Unequal(a, NO))) == Equal(a, NO)
  {
  }
}
